/** The flow table as a list, newest entry first: what a lookup returns, and what can be taken out
    of the table without any packet noticing. */
module FlowSpec {
  import opened Integers
  import opened Wrappers
  import opened OpenFlow
  import opened Packets
  import opened Matching

  datatype Entry = Entry(m: Match, irq: U8)

  /** First-match scan. */
  ghost function Lookup(host: Host, t: seq<Entry>, p: Packet): Option<Entry> {
    if t == [] then None
    else if Matches(host, t[0].m, p) then Some(t[0])
    else Lookup(host, t[1..], p)
  }

  /** The CPU a packet is sent to, if any entry claims it. */
  ghost function Steer(host: Host, t: seq<Entry>, p: Packet): Option<U8> {
    var e := Lookup(host, t, p);
    if e.Some? then Some(e.value.irq) else None
  }

  /** Entry i is the newest one that the packet meets. */
  ghost predicate Newest(host: Host, t: seq<Entry>, p: Packet, i: nat) {
    && i < |t|
    && Matches(host, t[i].m, p)
    && forall j :: 0 <= j < i ==> !Matches(host, t[j].m, p)
  }

  lemma {:induction false} LookupFindsNewest(host: Host, t: seq<Entry>, p: Packet, i: nat)
    requires Newest(host, t, p, i)
    ensures Lookup(host, t, p) == Some(t[i])
  {
    if i > 0 {
      assert !Matches(host, t[0].m, p);
      assert Newest(host, t[1..], p, i - 1);
      LookupFindsNewest(host, t[1..], p, i - 1);
    }
  }

  lemma {:induction false} LookupMisses(host: Host, t: seq<Entry>, p: Packet)
    ensures Lookup(host, t, p) == None <==> forall i :: 0 <= i < |t| ==> !Matches(host, t[i].m, p)
  {
    if t != [] {
      LookupMisses(host, t[1..], p);
      assert forall i :: 1 <= i < |t| ==> t[i] == t[1..][i - 1];
      if Lookup(host, t, p) == None {
        forall i | 0 <= i < |t|
          ensures !Matches(host, t[i].m, p)
        {
          if i > 0 {
            assert t[i] == t[1..][i - 1];
          }
        }
      }
    }
  }

  lemma {:induction false} NewestExists(host: Host, t: seq<Entry>, p: Packet) returns (i: nat)
    requires Lookup(host, t, p).Some?
    ensures Newest(host, t, p, i)
  {
    if Matches(host, t[0].m, p) {
      i := 0;
    } else {
      var k := NewestExists(host, t[1..], p);
      i := k + 1;
    }
  }

  /** A scan of a table put in front of another falls through to the older one. */
  lemma {:induction false} LookupAppend(host: Host, newer: seq<Entry>, older: seq<Entry>, p: Packet)
    ensures Lookup(host, newer + older, p)
         == if Lookup(host, newer, p).Some? then Lookup(host, newer, p) else Lookup(host, older, p)
  {
    if newer == [] {
      assert newer + older == older;
    } else {
      assert (newer + older)[1..] == newer[1..] + older;
      LookupAppend(host, newer[1..], older, p);
    }
  }

  function RemoveAt(t: seq<Entry>, j: nat): seq<Entry>
    requires j < |t|
  {
    t[..j] + t[j + 1..]
  }

  /** Removing an entry changes nothing for the packets that some newer entry claims. */
  lemma {:induction false} ShadowedForPacket(host: Host, t: seq<Entry>, i: nat, j: nat, p: Packet)
    requires i < j < |t|
    requires Matches(host, t[j].m, p) ==> Matches(host, t[i].m, p)
    ensures Lookup(host, RemoveAt(t, j), p) == Lookup(host, t, p)
  {
    assert t == t[..j] + ([t[j]] + t[j + 1..]);
    LookupAppend(host, t[..j], [t[j]] + t[j + 1..], p);
    LookupAppend(host, t[..j], t[j + 1..], p);
    LookupAppend(host, [t[j]], t[j + 1..], p);
    LookupMisses(host, t[..j], p);
    assert t[..j][i] == t[i];
  }

  /** An entry that a newer live entry covers, or that merely repeats a newer one's record, can be
      removed without changing where any packet goes. */
  lemma {:induction false} CoveredEntryIsTransparent(host: Host, t: seq<Entry>, i: nat, j: nat)
    requires i < j < |t|
    requires t[i].m == t[j].m || (Live(t[i].m.wildcards) && Covers(t[i].m, t[j].m))
    ensures forall p: Packet :: Lookup(host, RemoveAt(t, j), p) == Lookup(host, t, p)
  {
    forall p: Packet
      ensures Lookup(host, RemoveAt(t, j), p) == Lookup(host, t, p)
    {
      if Matches(host, t[j].m, p) && t[i].m != t[j].m {
        CoveringMatches(host, t[i].m, t[j].m, p);
      }
      ShadowedForPacket(host, t, i, j, p);
    }
  }
}
