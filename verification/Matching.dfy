/** Match records: which packets one accepts, what storing it keeps, which records can accept
    anything at all, and when one record accepts everything another does. */
module Matching {
  import opened Integers
  import opened OpenFlow
  import opened Packets

  /** The fields of struct vse_match that are read somewhere. */
  datatype Match = Match(wildcards: U32, vmId: U8, dlDst: Mac, vxVni: U32, dlIndst: Mac)

  const ZERO_MATCH := Match(ALL_CLEAR, U8(0), ZERO_MAC, U32(0), ZERO_MAC)

  /** Whether the packet carries the record's value in one field. */
  predicate Agrees(host: Host, m: Match, f: Field, p: Packet) {
    if f == OFPFW_VM_ID then m.vmId.bits & 0x7f == Tos(p) >> 2
    else if f == OFPFW_DL_DST then m.dlDst == p.ethDst
    else if f == OFPFW_VXLAN_VNI then m.vxVni.bits == ExtractVni(host, p)
    else m.dlIndst == InnerDst(p)
  }

  /** The declarative reading of a record: nothing outside the supported fields is asked for, and
      the packet agrees on every field that is. */
  ghost predicate Matches(host: Host, m: Match, p: Packet) {
    && Live(m.wildcards)
    && forall f: Field :: Constrained(m.wildcards, f) ==> Agrees(host, m, f, p)
  }

  // ---------- The accumulating matcher ----------

  /** The test of the virtual machine id: xor with the upper six bits of the TOS byte. */
  method VmIdDiffers(host: Host, m: Match, p: Packet) returns (differs: bool)
    ensures differs <==> !Agrees(host, m, OFPFW_VM_ID, p)
  {
    differs := (m.vmId.bits ^ (Tos(p) >> 2)) & 0x7f != 0;
    VmIdBits(m.vmId.bits, Tos(p));
  }

  lemma {:induction false} VmIdBits(vmId: bv8, tos: bv8)
    ensures (vmId ^ (tos >> 2)) & 0x7f == 0 <==> vmId & 0x7f == tos >> 2
  {
  }

  /** Once every constrained field has agreed and been settled, the final comparison decides. */
  lemma {:induction false} Verdict(host: Host, m: Match, p: Packet, w: U32)
    requires Live(w) <==> Live(m.wildcards)
    requires !Constrained(w, OFPFW_VM_ID) && !Constrained(w, OFPFW_DL_DST)
    requires !Constrained(w, OFPFW_VXLAN_VNI) && !Constrained(w, OFPFW_DL_INDST)
    requires Constrained(m.wildcards, OFPFW_VM_ID) ==> Agrees(host, m, OFPFW_VM_ID, p)
    requires Constrained(m.wildcards, OFPFW_DL_DST) ==> Agrees(host, m, OFPFW_DL_DST, p)
    requires Constrained(m.wildcards, OFPFW_VXLAN_VNI) ==> Agrees(host, m, OFPFW_VXLAN_VNI, p)
    requires Constrained(m.wildcards, OFPFW_DL_INDST) ==> Agrees(host, m, OFPFW_DL_INDST, p)
    ensures w == ALL_SET <==> Matches(host, m, p)
  {
    AllSettled(w);
  }

  /** The comparisons of vse_do_match: checks the constrained fields in turn, sets the bit of each
      field checked, and accepts when every wildcard bit has come to be set. */
  method MatchPacket(host: Host, m: Match, p: Packet) returns (matched: bool)
    ensures matched <==> Matches(host, m, p)
  {
    var w := m.wildcards;
    if Constrained(w, OFPFW_VM_ID) {
      var differs := VmIdDiffers(host, m, p);
      if differs {
        return false;
      }
      SetFlag(w, OFPFW_VM_ID);
      w := With(w, OFPFW_VM_ID);
    }
    if Constrained(w, OFPFW_DL_DST) {
      if m.dlDst != p.ethDst {
        assert !Agrees(host, m, OFPFW_DL_DST, p);
        return false;
      }
      SetFlag(w, OFPFW_DL_DST);
      w := With(w, OFPFW_DL_DST);
    }
    if Constrained(w, OFPFW_VXLAN_VNI) {
      if m.vxVni.bits != ExtractVni(host, p) {
        assert !Agrees(host, m, OFPFW_VXLAN_VNI, p);
        return false;
      }
      SetFlag(w, OFPFW_VXLAN_VNI);
      w := With(w, OFPFW_VXLAN_VNI);
    }
    if Constrained(w, OFPFW_DL_INDST) {
      if m.dlIndst != InnerDst(p) {
        assert !Agrees(host, m, OFPFW_DL_INDST, p);
        return false;
      }
      SetFlag(w, OFPFW_DL_INDST);
      w := With(w, OFPFW_DL_INDST);
    }
    Verdict(host, m, p, w);
    return w == ALL_SET;
  }

  /** The verdict on bytes: the bits of the record's word say which of the four values are asked for, and
      the bytes that hold them carry the record's. */
  predicate OnBytes(host: Host, m: Match, tos: U8, ethDst: seq<U8>, v0: U8, v1: U8, v2: U8, inner: seq<U8>) {
    var w := m.wildcards.bits;
    && w | 0x20_0508 == 0x3f_ffff
    && (w & 0x20_0000 == 0 ==> m.vmId.bits & 0x7f == tos.bits >> 2)
    && (w & 0x8 == 0 ==> m.dlDst == ethDst)
    && (w & 0x100 == 0 ==> m.vxVni.bits == VniFromWire(host, v0.bits, v1.bits, v2.bits))
    && (w & 0x400 == 0 ==> m.dlIndst == inner)
  }

  /** A record matches a packet exactly if that is the verdict on its bytes. */
  lemma {:induction false} MatchesBytes(host: Host, m: Match, p: Packet)
    ensures Matches(host, m, p) <==>
      OnBytes(host, m, p.net[1], p.ethDst, p.net[32], p.net[33], p.net[34], p.net[36..42])
  {
    WordBits(m.wildcards.bits);
    ExtractedBytes(host, p);
    FieldByField(host, m, p);
  }

  lemma {:induction false} FieldByField(host: Host, m: Match, p: Packet)
    ensures Matches(host, m, p) <==>
      && Live(m.wildcards)
      && (Constrained(m.wildcards, OFPFW_VM_ID) ==> Agrees(host, m, OFPFW_VM_ID, p))
      && (Constrained(m.wildcards, OFPFW_DL_DST) ==> Agrees(host, m, OFPFW_DL_DST, p))
      && (Constrained(m.wildcards, OFPFW_VXLAN_VNI) ==> Agrees(host, m, OFPFW_VXLAN_VNI, p))
      && (Constrained(m.wildcards, OFPFW_DL_INDST) ==> Agrees(host, m, OFPFW_DL_INDST, p))
  {
  }

  /** The same of the bytes of a buffer. */
  lemma {:induction false} MatchesBuffer(host: Host, m: Match, skb: SkBuff)
    requires skb.Valid()
    ensures var mac := if skb.macHeader.Some? then skb.macHeader.value else skb.data;
      Matches(host, m, skb.View()) <==>
        OnBytes(host, m, skb.head[skb.data + 1], skb.head[mac..mac + 6], skb.head[skb.data + 32],
                skb.head[skb.data + 33], skb.head[skb.data + 34], skb.head[skb.data + 36..skb.data + 42])
  {
    var p := skb.View();
    skb.ViewOfBytes();
    MatchesBytes(host, m, p);
    assert p.net[1] == skb.head[skb.data + 1] && p.net[32] == skb.head[skb.data + 32];
    assert p.net[33] == skb.head[skb.data + 33] && p.net[34] == skb.head[skb.data + 34];
    assert p.net[36..42] == skb.head[skb.data + 36..skb.data + 42];
  }

  /** vse_do_match on a socket buffer: points its network header at its data, then compares. */
  method DoMatch(host: Host, skb: SkBuff, m: Match) returns (matched: bool)
    requires skb.Valid()
    modifies skb`networkHeader
    ensures matched <==> Matches(host, m, skb.View())
    ensures var mac := if skb.macHeader.Some? then skb.macHeader.value else skb.data;
      matched <==>
        OnBytes(host, m, skb.head[skb.data + 1], skb.head[mac..mac + 6], skb.head[skb.data + 32],
                skb.head[skb.data + 33], skb.head[skb.data + 34], skb.head[skb.data + 36..skb.data + 42])
    ensures skb.networkHeader == skb.data
  {
    skb.networkHeader := skb.data;
    matched := MatchPacket(host, m, skb.View());
    MatchesBuffer(host, m, skb);
  }

  // ---------- Storing a record ----------

  /** The record that lands in a freshly zeroed entry: constrained fields only. */
  function Stored(m: Match): Match {
    Match(m.wildcards,
          if Constrained(m.wildcards, OFPFW_VM_ID) then m.vmId else U8(0),
          if Constrained(m.wildcards, OFPFW_DL_DST) then m.dlDst else ZERO_MAC,
          if Constrained(m.wildcards, OFPFW_VXLAN_VNI) then m.vxVni else U32(0),
          if Constrained(m.wildcards, OFPFW_DL_INDST) then m.dlIndst else ZERO_MAC)
  }

  /** Bit by bit of the word: what is copied, and that the rest stays zero. */
  lemma {:induction false} StoredFields(m: Match)
    ensures var w, s := m.wildcards.bits, Stored(m);
      && s.wildcards == m.wildcards
      && s.vmId == (if w & 0x20_0000 == 0 then m.vmId else U8(0))
      && s.vxVni == (if w & 0x100 == 0 then m.vxVni else U32(0))
      && forall k :: 0 <= k < 6 ==>
           && s.dlDst[k] == (if w & 0x8 == 0 then m.dlDst[k] else U8(0))
           && s.dlIndst[k] == (if w & 0x400 == 0 then m.dlIndst[k] else U8(0))
  {
    WordBits(m.wildcards.bits);
  }

  /** Dropping the unconstrained fields changes no match, whatever the wildcard word, and storing
      twice is storing once. */
  lemma {:induction false} StoringKeepsMeaning(host: Host, m: Match, p: Packet)
    ensures Matches(host, Stored(m), p) <==> Matches(host, m, p)
    ensures Stored(Stored(m)) == Stored(m)
  {
    forall f: Field | Constrained(m.wildcards, f)
      ensures Agrees(host, Stored(m), f, p) <==> Agrees(host, m, f, p)
    {
      StoredAgrees(host, m, p, f);
    }
  }

  lemma {:induction false} StoredAgrees(host: Host, m: Match, p: Packet, f: Field)
    requires Constrained(m.wildcards, f)
    ensures Agrees(host, Stored(m), f, p) <==> Agrees(host, m, f, p)
  {
  }

  // ---------- Records that can match ----------

  /** What a caller can check of a record to know that some packet meets it. */
  predicate CanMatch(host: Host, m: Match) {
    && Live(m.wildcards)
    && (Constrained(m.wildcards, OFPFW_VM_ID) ==> m.vmId.bits & 0x40 == 0)
    && (Constrained(m.wildcards, OFPFW_VXLAN_VNI) ==> InVniImage(host, m.vxVni.bits))
  }

  lemma {:induction false} VmIdImage(vmId: bv8, tos: bv8)
    requires vmId & 0x7f == tos >> 2
    ensures vmId & 0x40 == 0
  {
  }

  lemma {:induction false} VmIdPreimage(vmId: bv8)
    requires vmId & 0x40 == 0
    ensures vmId & 0x7f == (vmId << 2) >> 2
  {
  }

  /** A packet carrying the record's values. */
  function Specimen(m: Match): Packet {
    Frame(m.dlDst, m.vmId.bits << 2, if m.vxVni.bits < 0x100_0000 then m.vxVni.bits else 0, m.dlIndst)
  }

  lemma {:induction false} SpecimenMatches(host: Host, m: Match)
    requires CanMatch(host, m)
    ensures Matches(host, m, Specimen(m))
  {
    var p := Specimen(m);
    forall f: Field | Constrained(m.wildcards, f)
      ensures Agrees(host, m, f, p)
    {
      if f == OFPFW_VM_ID {
        VmIdPreimage(m.vmId.bits);
      } else if f == OFPFW_VXLAN_VNI {
        VniDecoding(host, p, m.vxVni.bits, 0);
      }
    }
  }

  /** A record matches some packet exactly when its word is live, its machine id fits in six bits
      and its network identifier is one that extraction can return. */
  lemma {:induction false} MatchableIsExact(host: Host, m: Match)
    ensures (exists p: Packet :: Matches(host, m, p)) <==> CanMatch(host, m)
  {
    if CanMatch(host, m) {
      SpecimenMatches(host, m);
    }
    forall p: Packet | Matches(host, m, p)
      ensures CanMatch(host, m)
    {
      if Constrained(m.wildcards, OFPFW_VM_ID) {
        assert Agrees(host, m, OFPFW_VM_ID, p);
        VmIdImage(m.vmId.bits, Tos(p));
      }
      if Constrained(m.wildcards, OFPFW_VXLAN_VNI) {
        assert Agrees(host, m, OFPFW_VXLAN_VNI, p);
        ExtractedVniInImage(host, p);
      }
    }
  }

  // ---------- Coverage ----------

  predicate SameValue(a: Match, b: Match, f: Field) {
    if f == OFPFW_VM_ID then a.vmId.bits & 0x7f == b.vmId.bits & 0x7f
    else if f == OFPFW_DL_DST then a.dlDst == b.dlDst
    else if f == OFPFW_VXLAN_VNI then a.vxVni == b.vxVni
    else a.dlIndst == b.dlIndst
  }

  /** a constrains no field that b leaves open, and asks for the same values as b. */
  ghost predicate Covers(a: Match, b: Match) {
    forall f: Field :: Constrained(a.wildcards, f) ==> Constrained(b.wildcards, f) && SameValue(a, b, f)
  }

  /** A packet like p, except that it disagrees with the record on field f. */
  function Disagreeing(p: Packet, m: Match, f: Field): Packet {
    if f == OFPFW_VM_ID then Packet(p.ethDst, p.net[1 := U8(!(m.vmId.bits << 2))])
    else if f == OFPFW_DL_DST then Packet(p.ethDst[0 := U8(!m.dlDst[0].bits)], p.net)
    else if f == OFPFW_VXLAN_VNI then Packet(p.ethDst, p.net[34 := U8(!((m.vxVni.bits & 0xff) as bv8))])
    else Packet(p.ethDst, p.net[36 := U8(!m.dlIndst[0].bits)])
  }

  lemma {:induction false} OtherTos(vmId: bv8)
    ensures vmId & 0x7f != !(vmId << 2) >> 2
  {
  }

  lemma {:induction false} OtherVni(v: bv32, b0: bv8, b1: bv8, b3: bv8)
    ensures v != LittleEndianVni(b0, b1, !((v & 0xff) as bv8), b3)
    ensures v != BigEndianVni(b0, b1, !((v & 0xff) as bv8), b3)
  {
  }

  lemma {:induction false} DisagreeingDisagrees(host: Host, p: Packet, m: Match, f: Field)
    ensures !Agrees(host, m, f, Disagreeing(p, m, f))
  {
    var q := Disagreeing(p, m, f);
    if f == OFPFW_VM_ID {
      OtherTos(m.vmId.bits);
    } else if f == OFPFW_DL_DST {
      NotItself(m.dlDst[0].bits);
      assert q.ethDst[0] != m.dlDst[0];
    } else if f == OFPFW_VXLAN_VNI {
      OtherVni(m.vxVni.bits, p.net[32].bits, p.net[33].bits, p.net[35].bits);
    } else {
      NotItself(m.dlIndst[0].bits);
      assert InnerDst(q)[0] != m.dlIndst[0];
    }
  }

  lemma {:induction false} NotItself(b: bv8)
    ensures !b != b
  {
  }

  /** The four places a match reads do not overlap. */
  lemma {:induction false} PlacesDisjoint(host: Host, p: Packet, m: Match, f: Field)
    ensures var q := Disagreeing(p, m, f);
      && (f != OFPFW_VM_ID ==> Tos(q) == Tos(p))
      && (f != OFPFW_DL_DST ==> q.ethDst == p.ethDst)
      && (f != OFPFW_VXLAN_VNI ==> q.net[32..36] == p.net[32..36])
      && (f != OFPFW_DL_INDST ==> InnerDst(q) == InnerDst(p))
  {
    var q := Disagreeing(p, m, f);
    assert f != OFPFW_VXLAN_VNI ==> q.net[32..36] == p.net[32..36];
    assert f != OFPFW_DL_INDST ==> q.net[36..42] == p.net[36..42];
  }

  lemma {:induction false} VniFromBytes(host: Host, p: Packet, q: Packet)
    requires p.net[32..36] == q.net[32..36]
    ensures ExtractVni(host, p) == ExtractVni(host, q)
  {
    assert p.net[32] == p.net[32..36][0] == q.net[32];
    assert p.net[33] == p.net[32..36][1] == q.net[33];
    assert p.net[34] == p.net[32..36][2] == q.net[34];
    assert p.net[35] == p.net[32..36][3] == q.net[35];
  }

  lemma {:induction false} DisagreeingElsewhereSame(host: Host, p: Packet, m: Match, f: Field, b: Match, g: Field)
    requires f != g
    ensures Agrees(host, b, g, Disagreeing(p, m, f)) <==> Agrees(host, b, g, p)
  {
    PlacesDisjoint(host, p, m, f);
    if g == OFPFW_VXLAN_VNI {
      VniFromBytes(host, p, Disagreeing(p, m, f));
    }
  }

  lemma {:induction false} CoveringMatches(host: Host, a: Match, b: Match, p: Packet)
    requires Live(a.wildcards) && Covers(a, b) && Matches(host, b, p)
    ensures Matches(host, a, p)
  {
    forall f: Field | Constrained(a.wildcards, f)
      ensures Agrees(host, a, f, p)
    {
      assert Agrees(host, b, f, p) && SameValue(a, b, f);
    }
  }

  /** A record accepts every packet that another, satisfiable one accepts exactly when it is live
      and covers it field by field. */
  lemma {:induction false} CoverageIsExact(host: Host, a: Match, b: Match)
    requires CanMatch(host, b)
    ensures (forall p: Packet :: Matches(host, b, p) ==> Matches(host, a, p))
       <==> Live(a.wildcards) && Covers(a, b)
  {
    if Live(a.wildcards) && Covers(a, b) {
      forall p: Packet | Matches(host, b, p)
        ensures Matches(host, a, p)
      {
        CoveringMatches(host, a, b, p);
      }
    }
    if forall p: Packet :: Matches(host, b, p) ==> Matches(host, a, p) {
      SpecimenMatches(host, b);
      assert Matches(host, a, Specimen(b));
      forall f: Field | Constrained(a.wildcards, f)
        ensures Constrained(b.wildcards, f) && SameValue(a, b, f)
      {
        InclusionCovers(host, a, b, f);
      }
    }
  }

  lemma {:induction false} InclusionCovers(host: Host, a: Match, b: Match, f: Field)
    requires CanMatch(host, b)
    requires forall p: Packet :: Matches(host, b, p) ==> Matches(host, a, p)
    requires Constrained(a.wildcards, f)
    ensures Constrained(b.wildcards, f) && SameValue(a, b, f)
  {
    SpecimenMatches(host, b);
    var p := Specimen(b);
    if !Constrained(b.wildcards, f) {
      var q := Disagreeing(p, a, f);
      forall g: Field | Constrained(b.wildcards, g)
        ensures Agrees(host, b, g, q)
      {
        DisagreeingElsewhereSame(host, p, a, f, b, g);
      }
      DisagreeingDisagrees(host, p, a, f);
      assert Matches(host, b, q);
      assert false;
    }
    assert Agrees(host, a, f, p) && Agrees(host, b, f, p);
  }

  // ---------- The byte that is read without its header being set ----------

  /** The packet with another TOS byte. */
  function WithTos(p: Packet, tos: U8): Packet {
    Packet(p.ethDst, p.net[1 := tos])
  }

  lemma {:induction false} TosElsewhere(host: Host, m: Match, p: Packet, tos: U8, f: Field)
    requires f != OFPFW_VM_ID
    ensures Agrees(host, m, f, WithTos(p, tos)) <==> Agrees(host, m, f, p)
  {
    var q := WithTos(p, tos);
    assert q.net[32..36] == p.net[32..36] && q.net[36..42] == p.net[36..42];
    VniFromBytes(host, p, q);
  }

  /** What stands in the TOS byte makes a difference for some packet exactly if the record can match at
      all and constrains the machine id. */
  lemma {:induction false} TosMatters(host: Host, m: Match)
    ensures (exists p: Packet, tos: U8 :: Matches(host, m, WithTos(p, tos)) != Matches(host, m, p))
       <==> CanMatch(host, m) && Constrained(m.wildcards, OFPFW_VM_ID)
  {
    if CanMatch(host, m) && Constrained(m.wildcards, OFPFW_VM_ID) {
      var p, tos := Specimen(m), U8(!(m.vmId.bits << 2));
      SpecimenMatches(host, m);
      OtherTos(m.vmId.bits);
      assert !Agrees(host, m, OFPFW_VM_ID, WithTos(p, tos));
      assert !Matches(host, m, WithTos(p, tos));
    }
    forall p: Packet, tos: U8 | Matches(host, m, WithTos(p, tos)) != Matches(host, m, p)
      ensures CanMatch(host, m) && Constrained(m.wildcards, OFPFW_VM_ID)
    {
      MatchableIsExact(host, m);
      if !Constrained(m.wildcards, OFPFW_VM_ID) {
        forall f: Field | f != OFPFW_VM_ID
          ensures Agrees(host, m, f, WithTos(p, tos)) <==> Agrees(host, m, f, p)
        {
          TosElsewhere(host, m, p, tos, f);
        }
      }
    }
  }
}
