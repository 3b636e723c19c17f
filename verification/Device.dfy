/** vse_dev.c: the control device, whose globals every ioctl updates in place. */
module Device {
  import opened Integers
  import opened OpenFlow
  import opened Packets
  import opened Matching
  import opened FlowSpec
  import opened FlowTable
  import opened Staging

  const SUCCESS := 0
  const EBUSY := 16

  class VseDevice {
    var entryMatch: Match
    var irq: U8
    var deviceOpen: int
    const table: Table
    ghost var history: seq<Call>

    /** The list is sound, and the globals and the table are what the calls made since the module was
        loaded lead to. */
    ghost predicate Valid()
      reads this, table, table.head, table.ring
    {
      && table.Valid()
      && View() == Run(BOOT, history)
    }

    ghost function State(): Stage
      reads `entryMatch, `irq
    {
      Stage(entryMatch, irq)
    }

    ghost function View(): Dev
      reads `entryMatch, `irq, table`contents
    {
      Dev(State(), table.contents)
    }

    /** Module load: zeroed globals and an empty list. */
    constructor (host: Host)
      ensures Valid() && history == [] && deviceOpen == 0 && table.host == host && fresh(table)
    {
      entryMatch, irq, deviceOpen := ZERO_MATCH, U8(0), 0;
      table := new Table(host);
      history := [];
    }

    /** device_open: refuses while another handle is open. */
    method Open() returns (ret: int)
      requires Valid()
      modifies `deviceOpen
      ensures Valid()
      ensures old(deviceOpen) != 0 ==> ret == -16 && deviceOpen == old(deviceOpen)
      ensures old(deviceOpen) == 0 ==> ret == 0 && deviceOpen == 1
    {
      if deviceOpen != 0 {
        return -EBUSY;
      }
      deviceOpen := deviceOpen + 1;
      return SUCCESS;
    }

    /** device_release. */
    method Release() returns (ret: int)
      requires Valid()
      modifies `deviceOpen
      ensures Valid()
      ensures ret == 0 && deviceOpen == old(deviceOpen) - 1
    {
      deviceOpen := deviceOpen - 1;
      return SUCCESS;
    }

    method SetVmId(b: U8)
      modifies `entryMatch
      ensures State() == Staged(old(State()), Cmd.SetVmId(b))
    {
      entryMatch := entryMatch.(vmId := b, wildcards := Without(entryMatch.wildcards, OFPFW_VM_ID));
    }

    /** vse_set_dl_indst1 to 6: only the last octet clears the wildcard bit. */
    method SetDlIndst(k: Octet, b: U8)
      modifies `entryMatch
      ensures State() == Staged(old(State()), Cmd.SetDlIndst(k, b))
    {
      if k == 5 {
        entryMatch := entryMatch.(
          dlIndst := entryMatch.dlIndst[k := b], wildcards := Without(entryMatch.wildcards, OFPFW_DL_INDST));
      } else {
        entryMatch := entryMatch.(dlIndst := entryMatch.dlIndst[k := b]);
      }
    }

    /** vse_set_dl_dst1 to 6. */
    method SetDlDst(k: Octet, b: U8)
      modifies `entryMatch
      ensures State() == Staged(old(State()), Cmd.SetDlDst(k, b))
    {
      if k == 5 {
        entryMatch := entryMatch.(
          dlDst := entryMatch.dlDst[k := b], wildcards := Without(entryMatch.wildcards, OFPFW_DL_DST));
      } else {
        entryMatch := entryMatch.(dlDst := entryMatch.dlDst[k := b]);
      }
    }

    method SetVni(v: U32)
      modifies `entryMatch
      ensures State() == Staged(old(State()), Cmd.SetVni(v))
    {
      entryMatch := entryMatch.(vxVni := v, wildcards := Without(entryMatch.wildcards, OFPFW_VXLAN_VNI));
    }

    /** The switch of vse_device_ioctl. The case of SET_IRQ has no break, so it goes on to publish. */
    method Dispatch(cmd: Cmd, memory: bool)
      requires table.Valid()
      modifies `entryMatch, `irq, table`ring, table`contents, table.head, table.ring
      ensures table.Valid() && fresh(table.Nodes() - old(table.Nodes()))
      ensures State() == Staged(old(State()), cmd)
      ensures table.contents == if Publishes(Call(cmd, memory))
        then [Entry(Stored(State().m), State().irq)] + old(table.contents) else old(table.contents)
    {
      match cmd {
        case InitWildcards =>
          entryMatch := ZERO_MATCH.(wildcards := ALL_SET);
          irq := NO_IRQ;
        case SetVmId(b) => SetVmId(b);
        case SetDlIndst(k, b) => SetDlIndst(k, b);
        case SetDlDst(k, b) => SetDlDst(k, b);
        case SetVni(v) => SetVni(v);
        case SetIrq(b) =>
          irq := b;
          Publish(memory);
        case SetEntry => Publish(memory);
        case Unknown =>
      }
    }

    method Perform(cmd: Cmd, memory: bool)
      requires table.Valid()
      modifies `entryMatch, `irq, table`ring, table`contents, table.head, table.ring
      ensures table.Valid() && fresh(table.Nodes() - old(table.Nodes()))
      ensures View() == Exec(old(View()), Call(cmd, memory))
    {
      ghost var d := View();
      Dispatch(cmd, memory);
      ExecByParts(d, View(), Call(cmd, memory));
    }

    /** vse_device_ioctl. The history records the call and whether an allocation it made succeeded. */
    method Ioctl(cmd: Cmd, memory: bool) returns (ret: int)
      requires Valid()
      modifies `entryMatch, `irq, `history, table`ring, table`contents, table.head, table.ring
      ensures Valid() && fresh(table.Nodes() - old(table.Nodes())) && ret == 0
      ensures history == old(history) + [Call(cmd, memory)]
    {
      RunExtends(history, Call(cmd, memory));
      Perform(cmd, memory);
      history := history + [Call(cmd, memory)];
      return SUCCESS;
    }

    method Publish(memory: bool)
      requires table.Valid()
      modifies table`ring, table`contents, table.head, table.ring
      ensures table.Valid()
      ensures table.contents ==
        if memory then [Entry(Stored(entryMatch), irq)] + old(table.contents) else old(table.contents)
      ensures fresh(table.Nodes() - old(table.Nodes()))
    {
      var ok := table.Add(entryMatch, irq, memory);
    }
  }

  lemma {:induction false} ExecByParts(d: Dev, d': Dev, c: Call)
    requires d'.stage == Staged(d.stage, c.cmd)
    requires d'.table == if Publishes(c) then [Entry(Stored(d'.stage.m), d'.stage.irq)] + d.table else d.table
    ensures d' == Exec(d, c)
  {
  }

  lemma {:induction false} RunExtends(h: seq<Call>, c: Call)
    ensures Run(BOOT, h + [c]) == Exec(Run(BOOT, h), c)
  {
    assert (h + [c])[..|h|] == h;
  }
}
