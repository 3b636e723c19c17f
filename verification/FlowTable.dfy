/** vse_flow_table.c on the heap: an intrusive circular doubly linked list with a sentinel, grown at
    the head, scanned for the first match and drained at unload. */
module FlowTable {
  import opened Integers
  import opened Wrappers
  import opened OpenFlow
  import opened Packets
  import opened Matching
  import opened FlowSpec

  /** struct vse_flow_entry with its embedded list_head. The sentinel is a node whose record is
      never read. */
  class ListNode {
    var next: ListNode?
    var prev: ListNode?
    var m: Match
    var irq: U8

    /** kzalloc. */
    constructor ()
      ensures next == null && prev == null && m == ZERO_MATCH && irq == U8(0)
    {
      next, prev, m, irq := null, null, ZERO_MATCH, U8(0);
    }

    /** vse_set_entry_match: copies the wildcard word and the constrained fields. */
    method SetMatch(data: Match)
      requires m == ZERO_MATCH
      modifies this`m
      ensures m == Stored(data)
    {
      var w := data.wildcards;
      ghost var s := Stored(data);
      m := m.(wildcards := w);
      if Constrained(w, OFPFW_VM_ID) {
        m := m.(vmId := data.vmId);
      }
      assert m == Match(w, s.vmId, ZERO_MAC, U32(0), ZERO_MAC);
      if Constrained(w, OFPFW_DL_DST) {
        m := m.(dlDst := data.dlDst);
      }
      assert m == Match(w, s.vmId, s.dlDst, U32(0), ZERO_MAC);
      if Constrained(w, OFPFW_VXLAN_VNI) {
        m := m.(vxVni := data.vxVni);
      }
      assert m == Match(w, s.vmId, s.dlDst, s.vxVni, ZERO_MAC);
      if Constrained(w, OFPFW_DL_INDST) {
        m := m.(dlIndst := data.dlIndst);
      }
    }
  }

  ghost predicate Distinct(s: seq<ListNode>) {
    forall i, j :: 0 <= i < j < |s| ==> s[i] != s[j]
  }

  lemma {:induction false} DistinctAfterRemoval(c: seq<ListNode>, j: nat)
    requires Distinct(c) && j < |c|
    ensures Distinct(c[..j] + c[j + 1..]) && c[j] !in c[..j] + c[j + 1..]
  {
  }

  function Succ(i: nat, n: nat): nat { if i + 1 < n then i + 1 else 0 }
  function Pred(i: nat, n: nat): nat requires n > 0 { if i > 0 then i - 1 else n - 1 }

  /** The nodes form one closed ring in this order. */
  ghost predicate Linked(c: seq<ListNode>)
    reads c
  {
    && (forall i {:trigger c[i].next} :: 0 <= i < |c| ==> c[i].next == c[Succ(i, |c|)])
    && (forall i {:trigger c[i].prev} :: 0 <= i < |c| ==> c[i].prev == c[Pred(i, |c|)])
  }

  /** Joining the neighbours of a node leaves a ring without it. */
  lemma {:induction false} LinkedAfterRemoval(c: seq<ListNode>, d: seq<ListNode>, k: nat)
    requires 0 < k + 1 < |c| == |d| + 1
    requires forall i :: 0 <= i < |d| ==> d[i] == c[if i <= k then i else i + 1]
    requires forall j :: 0 <= j < |c| ==>
      c[j].next == if j == k then c[Succ(k + 1, |c|)] else c[Succ(j, |c|)]
    requires forall j :: 0 <= j < |c| ==>
      c[j].prev == if j == Succ(k + 1, |c|) then c[k] else c[Pred(j, |c|)]
    ensures Linked(d)
  {
  }

  method JoinNeighbours(entry: ListNode, ghost c: seq<ListNode>, ghost k: nat)
    requires Linked(c) && Distinct(c) && k + 1 < |c| && c[k + 1] == entry
    modifies c
    ensures forall j :: 0 <= j < |c| ==>
      c[j].next == if j == k then c[Succ(k + 1, |c|)] else c[Succ(j, |c|)]
    ensures forall j :: 0 <= j < |c| ==>
      c[j].prev == if j == Succ(k + 1, |c|) then c[k] else c[Pred(j, |c|)]
    ensures forall n :: n in c ==> n.m == old(n.m) && n.irq == old(n.irq)
  {
    ghost var s := Succ(k + 1, |c|);
    var next, prev := entry.next, entry.prev;
    assert next == c[s] && prev == c[k];
    next.prev := prev;
    prev.next := next;
  }

  /** list_del: what is left is a ring of the other nodes, with their records. */
  method Unlink(entry: ListNode, ghost c: seq<ListNode>, ghost k: nat)
    requires Linked(c) && Distinct(c) && k + 1 < |c| && c[k + 1] == entry
    modifies c
    ensures Linked(c[..k + 1] + c[k + 2..]) && Distinct(c[..k + 1] + c[k + 2..])
    ensures entry !in c[..k + 1] + c[k + 2..]
    ensures forall n :: n in c ==> n.m == old(n.m) && n.irq == old(n.irq)
  {
    JoinNeighbours(entry, c, k);
    DistinctAfterRemoval(c, k + 1);
    LinkedAfterRemoval(c, c[..k + 1] + c[k + 2..], k);
  }

  /** The node linked in behind the first one makes a ring with it in second place. */
  lemma {:induction false} LinkedAfterInsertion(c: seq<ListNode>, d: seq<ListNode>, entry: ListNode)
    requires 0 < |c| && |d| == |c| + 1
    requires forall i :: 0 <= i < |d| ==> d[i] == if i == 0 then c[0] else if i == 1 then entry else c[i - 1]
    requires entry.next == c[Succ(0, |c|)] && entry.prev == c[0]
    requires forall j :: 0 <= j < |c| ==> c[j].next == if j == 0 then entry else c[Succ(j, |c|)]
    requires forall j :: 0 <= j < |c| ==> c[j].prev == if j == Succ(0, |c|) then entry else c[Pred(j, |c|)]
    ensures Linked(d)
  {
  }

  /** The four link writes of list_add, the one that publishes last. */
  method LinkAfter(head: ListNode, entry: ListNode, ghost c: seq<ListNode>)
    requires Linked(c) && Distinct(c) && 0 < |c| && c[0] == head && entry !in c
    modifies c, entry
    ensures entry.next == c[Succ(0, |c|)] && entry.prev == head
    ensures forall j :: 0 <= j < |c| ==> c[j].next == if j == 0 then entry else c[Succ(j, |c|)]
    ensures forall j :: 0 <= j < |c| ==> c[j].prev == if j == Succ(0, |c|) then entry else c[Pred(j, |c|)]
    ensures forall n :: n in c + [entry] ==> n.m == old(n.m) && n.irq == old(n.irq)
  {
    var next := head.next;
    assert next == c[Succ(0, |c|)];
    next.prev := entry;
    entry.next := next;
    entry.prev := head;
    head.next := entry;
  }

  class Table {
    const host: Host
    const head: ListNode
    ghost var ring: seq<ListNode>
    ghost var contents: seq<Entry>
    ghost var freed: seq<ListNode>

    /** The list is one ring through the sentinel: next and prev are inverse to each other, no node
        occurs twice, no freed node is on it, and the nodes hold the published entries, newest first. */
    ghost predicate Valid()
      reads this, head, ring
    {
      && Distinct([head] + ring)
      && Linked([head] + ring)
      && Distinct(freed)
      && (forall n :: n in freed ==> n != head && n !in ring)
      && |contents| == |ring|
      && (forall i :: 0 <= i < |ring| ==> contents[i] == Entry(ring[i].m, ring[i].irq))
    }

    /** The ring, link by link: from the sentinel over the nodes in order and back to it, */
    lemma {:induction false} HeadLinks()
      requires Valid()
      ensures head.next == if ring == [] then head else ring[0]
      ensures head.prev == if ring == [] then head else ring[|ring| - 1]
    {
      ghost var c := [head] + ring;
      assert c[0].next == c[Succ(0, |c|)] && c[0].prev == c[Pred(0, |c|)];
    }

    /** and backwards along the same nodes, none of which is the sentinel, occurs twice or is freed. */
    lemma {:induction false} NodeLinks(i: nat)
      requires Valid() && i < |ring|
      ensures ring[i].next == if i + 1 < |ring| then ring[i + 1] else head
      ensures ring[i].prev == if i > 0 then ring[i - 1] else head
      ensures ring[i] != head && ring[i] !in freed && forall j :: 0 <= j < i ==> ring[j] != ring[i]
    {
      ghost var c := [head] + ring;
      assert c[i + 1].next == c[Succ(i + 1, |c|)] && c[i + 1].prev == c[Pred(i + 1, |c|)];
      assert c[i + 1] != c[0];
      assert forall j :: 0 <= j < i ==> c[j + 1] == ring[j];
    }

    ghost function Nodes(): set<ListNode>
      reads `ring
    {
      set n | n in ring
    }

    /** LIST_HEAD. */
    constructor (host: Host)
      ensures Valid() && fresh(head) && this.host == host && ring == [] && freed == []
      ensures contents == []
    {
      this.host := host;
      var h := new ListNode();
      h.next, h.prev := h, h;
      head := h;
      ring, contents, freed := [], [], [];
    }

    /** list_add: the node is linked in behind the sentinel. */
    method ListAdd(entry: ListNode)
      requires Valid() && entry != head && entry !in ring && entry !in freed
      modifies `ring, `contents, head, ring, entry
      ensures Valid() && ring == [entry] + old(ring)
      ensures contents == [Entry(entry.m, entry.irq)] + old(contents)
      ensures entry.m == old(entry.m) && entry.irq == old(entry.irq)
    {
      ghost var c := [head] + ring;
      LinkAfter(head, entry, c);
      ring := [entry] + ring;
      contents := [Entry(entry.m, entry.irq)] + contents;
      ghost var d := [head] + ring;
      assert forall i :: 0 <= i < |d| ==> d[i] == if i == 0 then head else if i == 1 then entry else c[i - 1];
      LinkedAfterInsertion(c, d, entry);
    }

    /** vse_add_table_entry_and_irq: on success the new entry is complete and heads the list; when
        the allocation fails nothing changes. */
    method Add(data: Match, irq: U8, memory: bool) returns (ok: bool)
      requires Valid()
      modifies `ring, `contents, head, ring
      ensures Valid() && ok == memory
      ensures !ok ==> ring == old(ring) && contents == old(contents)
      ensures ok ==> |ring| > 0 && fresh(ring[0]) && ring[1..] == old(ring)
      ensures fresh(Nodes() - old(Nodes()))
      ensures ok ==> contents == [Entry(Stored(data), irq)] + old(contents)
    {
      if !memory {
        return false;
      }
      var entry := new ListNode();
      entry.SetMatch(data);
      entry.irq := irq;
      ListAdd(entry);
      assert ring[1..] == old(ring);
      return true;
    }

    /** list_del: the neighbours of the node are joined. */
    method ListDel(entry: ListNode, ghost k: nat)
      requires Valid() && k < |ring| && ring[k] == entry
      modifies `ring, `contents, head, ring
      ensures Valid() && ring == old(ring)[..k] + old(ring)[k + 1..] && entry !in ring
      ensures contents == old(contents)[..k] + old(contents)[k + 1..]
    {
      ghost var c, was := [head] + ring, ring;
      Unlink(entry, c, k);
      ring := ring[..k] + ring[k + 1..];
      contents := contents[..k] + contents[k + 1..];
      assert c[..k + 1] + c[k + 2..] == [head] + ring;
      assert forall i :: 0 <= i < |ring| ==> ring[i] == was[if i < k then i else i + 1];
    }

    /** vse_delete_entry: a linked entry leaves the list; its links are cleared and it is freed. */
    method Delete(entry: ListNode?, ghost k: nat)
      requires Valid()
      requires entry != null ==> entry != head && entry !in freed
      requires entry != null && entry.next == null && entry.prev == null ==> entry !in ring
      requires entry != null && (entry.next != null || entry.prev != null) ==> k < |ring| && ring[k] == entry
      modifies this, head, ring, entry
      ensures Valid()
      ensures entry == null ==> ring == old(ring) && contents == old(contents) && freed == old(freed)
      ensures entry != null ==> freed == old(freed) + [entry] && entry.next == null && entry.prev == null
      ensures entry != null && old(entry.next == null && entry.prev == null) ==>
        ring == old(ring) && contents == old(contents)
      ensures entry != null && old(entry.next != null || entry.prev != null) ==>
        ring == old(ring)[..k] + old(ring)[k + 1..] && contents == old(contents)[..k] + old(contents)[k + 1..]
    {
      if entry != null {
        if entry.next != null || entry.prev != null {
          ListDel(entry, k);
          entry.next, entry.prev := null, null;
        }
        freed := freed + [entry];
      }
    }

    /** One round of draining: the first entry is deleted, and no node freed earlier is written. */
    method DeleteFirst(entry: ListNode)
      requires Valid() && ring != [] && entry == ring[0]
      requires entry.next != null
      modifies this, head, ring
      ensures Valid() && ring == old(ring)[1..] && contents == old(contents)[1..]
      ensures freed == old(freed) + [entry] && entry.next == null && entry.prev == null
      ensures forall n :: n in old(freed) ==> n.next == old(n.next) && n.prev == old(n.prev)
    {
      assert ([head] + ring)[1] == entry != ([head] + ring)[0];
      Delete(entry, 0);
    }

    /** vse_clean_up_flow_table: deletes the first entry until the list is empty. Every published
        entry is freed exactly once, newest first, and its links stay as freeing left them. */
    method CleanUp()
      requires Valid()
      modifies this, head, ring
      ensures Valid() && ring == [] && contents == []
      ensures head.next == head && head.prev == head
      ensures freed == old(freed) + old(ring)
      ensures forall n :: n in old(ring) ==> n.next == null && n.prev == null
    {
      ghost var i, was, earlier := 0, ring, freed;
      while head.next != head
        invariant Valid()
        invariant i <= |was| && ring == was[i..] && freed == earlier + was[..i]
        invariant forall j :: 0 <= j < i ==> was[j].next == null && was[j].prev == null
        decreases |ring|
      {
        ghost var c := [head] + ring;
        assert c[0].next == c[Succ(0, |c|)];
        var entry := head.next;
        assert entry == ring[0] == was[i] && c[1].next != null;
        assert forall j :: 0 <= j < i ==> was[j] == freed[|earlier| + j];
        DeleteFirst(entry);
        i := i + 1;
      }
      ghost var c := [head] + ring;
      assert c[0].next == c[Succ(0, |c|)] && c[0].prev == c[Pred(0, |c|)];
    }

    /** vse_look_up_flow_entry: scans from the head and stops at the first entry that matches. */
    method LookUp(skb: SkBuff) returns (entry: ListNode?)
      requires Valid() && skb.Valid()
      modifies skb`networkHeader
      ensures entry == null ==> forall j :: 0 <= j < |ring| ==> !Matches(host, ring[j].m, skb.View())
      ensures entry != null ==>
        exists i: nat :: i < |ring| && ring[i] == entry && Newest(host, contents, skb.View(), i)
      ensures Lookup(host, contents, skb.View())
           == if entry == null then None else Some(Entry(entry.m, entry.irq))
      ensures skb.networkHeader == if ring == [] then old(skb.networkHeader) else skb.data
    {
      ghost var c := [head] + ring;
      assert c[0].next == c[Succ(0, |c|)];
      var p := head.next;
      ghost var i := 0;
      while p != head
        invariant 0 <= i <= |ring|
        invariant p == c[Succ(i, |c|)]
        invariant forall j :: 0 <= j < i ==> !Matches(host, ring[j].m, skb.View())
        invariant skb.networkHeader == if i == 0 then old(skb.networkHeader) else skb.data
        decreases |ring| - i
      {
        assert p == ring[i];
        var matched := DoMatch(host, skb, p.m);
        if matched {
          assert Newest(host, contents, skb.View(), i);
          LookupFindsNewest(host, contents, skb.View(), i);
          return p;
        }
        assert c[i + 1].next == c[Succ(i + 1, |c|)];
        p := p.next;
        i := i + 1;
      }
      LookupMisses(host, contents, skb.View());
      return null;
    }
  }
}
