/** The wildcard word of a flow entry: the constants the matcher and the control device use,
    and what the word says about each of the four fields that VSE can match on. */
module OpenFlow {
  import opened Integers

  const OFPFW_DL_DST: bv32 := 0x8            // 1 << 3
  const OFPFW_VXLAN_VNI: bv32 := 0x100       // 1 << 8
  const OFPFW_DL_INDST: bv32 := 0x400        // 1 << 10
  const OFPFW_VM_ID: bv32 := 0x20_0000       // 1 << 21
  const OFPFW_ALL: bv32 := 0x3f_ffff         // (1 << 22) - 1

  /** The fields the matcher knows; every other wildcard bit is never cleared by it. */
  const SUPPORTED: bv32 := OFPFW_VM_ID | OFPFW_DL_DST | OFPFW_VXLAN_VNI | OFPFW_DL_INDST

  /** The CPU number that stands for "not assigned". */
  const NO_IRQ := U8(0xff)

  /** A supported field is named by its wildcard flag. */
  type Field = f: bv32
    | f == OFPFW_VM_ID || f == OFPFW_DL_DST || f == OFPFW_VXLAN_VNI || f == OFPFW_DL_INDST
    witness OFPFW_VM_ID

  const ALL_SET := U32(OFPFW_ALL)
  const ALL_CLEAR := U32(0)

  /** A field takes part in matching when its wildcard bit is clear. */
  predicate Constrained(w: U32, f: Field) {
    !w.bits & (f as bv32) != 0
  }

  /** Every bit outside the supported fields is wildcarded, and no bit beyond the 22 is set. */
  predicate Live(w: U32) {
    w.bits | SUPPORTED == OFPFW_ALL
  }

  /** The word with one flag cleared: the field becomes part of the match. */
  function Without(w: U32, f: Field): U32 {
    U32(w.bits & !(f as bv32))
  }

  /** The word with one flag set: the field has been dealt with. */
  function With(w: U32, f: Field): U32 {
    U32(w.bits | (f as bv32))
  }

  /** What the flags of the header mean on the bits of a word: a field is constrained when its bit is 0,
      and a live word has every other one of the 22 bits set and none beyond them. */
  lemma {:induction false} WordBits(w: bv32)
    ensures Constrained(U32(w), OFPFW_DL_DST) <==> w & 0x8 == 0
    ensures Constrained(U32(w), OFPFW_VXLAN_VNI) <==> w & 0x100 == 0
    ensures Constrained(U32(w), OFPFW_DL_INDST) <==> w & 0x400 == 0
    ensures Constrained(U32(w), OFPFW_VM_ID) <==> w & 0x20_0000 == 0
    ensures Live(U32(w)) <==> w | 0x20_0508 == 0x3f_ffff
  {
  }

  /** A live word is determined by the fields it constrains. */
  lemma {:induction false} LiveWordIsItsFields(v: U32, w: U32)
    requires Live(v) && Live(w)
    requires forall f: Field :: Constrained(v, f) <==> Constrained(w, f)
    ensures v == w
  {
    assert Constrained(v, OFPFW_VM_ID) <==> Constrained(w, OFPFW_VM_ID);
    assert Constrained(v, OFPFW_DL_DST) <==> Constrained(w, OFPFW_DL_DST);
    assert Constrained(v, OFPFW_VXLAN_VNI) <==> Constrained(w, OFPFW_VXLAN_VNI);
    assert Constrained(v, OFPFW_DL_INDST) <==> Constrained(w, OFPFW_DL_INDST);
  }

  /** Clearing one flag constrains that field, leaves the others alone and keeps the word live. */
  lemma {:induction false} ClearFlag(w: U32, f: Field)
    ensures forall g: Field :: Constrained(Without(w, f), g) <==> (g == f || Constrained(w, g))
    ensures Live(Without(w, f)) <==> Live(w)
  {
    forall g: Field
      ensures Constrained(Without(w, f), g) <==> (g == f || Constrained(w, g))
    {
      WithoutField(w, f, g);
    }
    WithoutLive(w, f);
  }

  lemma {:induction false} WithoutField(w: U32, f: Field, g: Field)
    ensures Constrained(Without(w, f), g) <==> (g == f || Constrained(w, g))
  {
  }

  lemma {:induction false} WithoutLive(w: U32, f: Field)
    ensures Live(Without(w, f)) <==> Live(w)
  {
  }

  /** Setting one flag settles that field, leaves the others alone and keeps the word live. */
  lemma {:induction false} SetFlag(w: U32, f: Field)
    ensures forall g: Field :: Constrained(With(w, f), g) <==> (g != f && Constrained(w, g))
    ensures Live(With(w, f)) <==> Live(w)
  {
    forall g: Field
      ensures Constrained(With(w, f), g) <==> (g != f && Constrained(w, g))
    {
      WithField(w, f, g);
    }
    WithLive(w, f);
  }

  lemma {:induction false} WithField(w: U32, f: Field, g: Field)
    ensures Constrained(With(w, f), g) <==> (g != f && Constrained(w, g))
  {
  }

  lemma {:induction false} WithLive(w: U32, f: Field)
    ensures Live(With(w, f)) <==> Live(w)
  {
  }

  /** A word that constrains no supported field is live exactly when every wildcard is set. */
  lemma {:induction false} AllSettled(w: U32)
    requires !Constrained(w, OFPFW_VM_ID) && !Constrained(w, OFPFW_DL_DST)
    requires !Constrained(w, OFPFW_VXLAN_VNI) && !Constrained(w, OFPFW_DL_INDST)
    ensures w == ALL_SET <==> Live(w)
  {
  }

  lemma {:induction false} AllWildcards()
    ensures Live(ALL_SET)
    ensures forall f: Field :: !Constrained(ALL_SET, f)
    ensures !Live(ALL_CLEAR)
    ensures forall f: Field :: Constrained(ALL_CLEAR, f)
  {
  }
}
