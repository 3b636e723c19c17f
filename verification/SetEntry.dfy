/** main of vse_set_entry.c: the loop over the argument vector, driving the control device. */
module SetEntry {
  import opened Integers
  import opened Packets
  import opened Staging
  import opened Cli

  /** A word of the argument vector, as strcmp tells them apart: the names of the four options, in the
      order in which each round of the loop tests for them, and any other text. */
  datatype Arg = VniName | IrqName | DlIndstName | DlDstName | Other(text: string) {
    /** The test that this word passes, or TESTS if it is no option. */
    function Rank(): (k: nat)
      ensures k <= TESTS
    {
      match this
      case VniName => 0
      case IrqName => 1
      case DlIndstName => 2
      case DlDstName => 3
      case Other(_) => TESTS
    }
  }

  const TESTS := 4

  /** The C library's parsers. sscanf is given the six octets it writes to: a value that is no whole
      address leaves some of them as they were. */
  datatype Libc = Libc(atoi: Arg -> U32, sscanf: (Arg, Mac) -> Mac)

  /** The locals of main: the current word and the octets of the last address. */
  datatype Cursor = Cursor(i: nat, dl: Mac)

  /** The option named by the current word, whose value is the next one. */
  function OptionAt(libc: Libc, argv: seq<Arg>, c: Cursor): Opt
    requires c.i + 1 < |argv| && !argv[c.i].Other?
  {
    var value := argv[c.i + 1];
    match argv[c.i]
    case VniName => Opt.Vni(libc.atoi(value))
    case IrqName => Irq(libc.atoi(value))
    case DlIndstName => IndstMac(libc.sscanf(value, c.dl))
    case DlDstName => DstMac(libc.sscanf(value, c.dl))
  }

  /** After it the value is the current word, and an address has been scanned into the octets. */
  function OnValue(libc: Libc, argv: seq<Arg>, c: Cursor): Cursor
    requires c.i + 1 < |argv| && !argv[c.i].Other?
  {
    Cursor(c.i + 1, if argv[c.i].DlIndstName? || argv[c.i].DlDstName? then libc.sscanf(argv[c.i + 1], c.dl) else c.dl)
  }

  /** Whether the current word passes a test that is still to come in the round, the k-th or a later one. */
  predicate Passes(argv: seq<Arg>, i: nat, k: nat) {
    i < |argv| && k <= argv[i].Rank() < TESTS
  }

  /** Every option found in the round is followed by a word. */
  predicate ValuesFollow(argv: seq<Arg>, i: nat, k: nat)
    decreases |argv| - i
  {
    Passes(argv, i, k) ==> i + 1 < |argv| && ValuesFollow(argv, i + 1, argv[i].Rank() + 1)
  }

  /** The options that the rest of a round finds: the current word, if it passes a test that is still to
      come, and then the same of its value. */
  function Found(libc: Libc, argv: seq<Arg>, c: Cursor, k: nat): seq<Opt>
    requires ValuesFollow(argv, c.i, k)
    decreases |argv| - c.i
  {
    if Passes(argv, c.i, k)
    then [OptionAt(libc, argv, c)] + Found(libc, argv, OnValue(libc, argv, c), argv[c.i].Rank() + 1)
    else []
  }

  /** Where the rest of the round ends. */
  function RoundEnd(libc: Libc, argv: seq<Arg>, c: Cursor, k: nat): (d: Cursor)
    requires ValuesFollow(argv, c.i, k)
    ensures c.i <= d.i
    decreases |argv| - c.i
  {
    if Passes(argv, c.i, k) then RoundEnd(libc, argv, OnValue(libc, argv, c), argv[c.i].Rank() + 1) else c
  }

  function Next(libc: Libc, argv: seq<Arg>, c: Cursor): (d: Cursor)
    requires ValuesFollow(argv, c.i, 0)
    ensures c.i < d.i
  {
    var d := RoundEnd(libc, argv, c, 0);
    Cursor(d.i + 1, d.dl)
  }

  /** In every round from the cursor on, options are followed by a word. */
  predicate WellFormed(libc: Libc, argv: seq<Arg>, c: Cursor)
    decreases |argv| - c.i
  {
    c.i >= |argv| || (ValuesFollow(argv, c.i, 0) && WellFormed(libc, argv, Next(libc, argv, c)))
  }

  /** The options found from the cursor on; other words are skipped. */
  function Options(libc: Libc, argv: seq<Arg>, c: Cursor): seq<Opt>
    requires WellFormed(libc, argv, c)
    decreases |argv| - c.i
  {
    if c.i >= |argv| then []
    else Found(libc, argv, c, 0) + Options(libc, argv, Next(libc, argv, c))
  }

  /** As long as no value is itself an option, each option takes exactly the next word, as its own kind of
      value, and any other word is skipped; an address stays in the octets. */
  lemma {:induction false} PlainWord(libc: Libc, argv: seq<Arg>, c: Cursor)
    requires c.i < |argv| && (!argv[c.i].Other? ==> c.i + 1 < |argv| && argv[c.i + 1].Other?)
    ensures ValuesFollow(argv, c.i, 0)
    ensures argv[c.i].VniName? ==>
      Found(libc, argv, c, 0) == [Opt.Vni(libc.atoi(argv[c.i + 1]))] && Next(libc, argv, c) == Cursor(c.i + 2, c.dl)
    ensures argv[c.i].IrqName? ==>
      Found(libc, argv, c, 0) == [Irq(libc.atoi(argv[c.i + 1]))] && Next(libc, argv, c) == Cursor(c.i + 2, c.dl)
    ensures argv[c.i].DlIndstName? ==> var dl := libc.sscanf(argv[c.i + 1], c.dl);
      Found(libc, argv, c, 0) == [IndstMac(dl)] && Next(libc, argv, c) == Cursor(c.i + 2, dl)
    ensures argv[c.i].DlDstName? ==> var dl := libc.sscanf(argv[c.i + 1], c.dl);
      Found(libc, argv, c, 0) == [DstMac(dl)] && Next(libc, argv, c) == Cursor(c.i + 2, dl)
    ensures argv[c.i].Other? ==>
      Found(libc, argv, c, 0) == [] && Next(libc, argv, c) == Cursor(c.i + 1, c.dl)
  {
    if !argv[c.i].Other? {
      EarlierOptionAsValue(libc, argv, c);
    }
  }

  /** So the four command lines with one option, after the name of the program, are what they look like. */
  lemma {:induction false} OneOption(libc: Libc, program: string, name: Arg, value: string, stack: Mac)
    requires !name.Other?
    ensures var argv, c := [Other(program), name, Other(value)], Cursor(0, stack);
      && WellFormed(libc, argv, c)
      && (name.VniName? ==> Options(libc, argv, c) == [Opt.Vni(libc.atoi(Other(value)))])
      && (name.IrqName? ==> Options(libc, argv, c) == [Irq(libc.atoi(Other(value)))])
      && (name.DlIndstName? ==> Options(libc, argv, c) == [IndstMac(libc.sscanf(Other(value), stack))])
      && (name.DlDstName? ==> Options(libc, argv, c) == [DstMac(libc.sscanf(Other(value), stack))])
  {
    var argv, c := [Other(program), name, Other(value)], Cursor(0, stack);
    PlainWord(libc, argv, c);
    var d := Next(libc, argv, c);
    PlainWord(libc, argv, d);
    assert Options(libc, argv, Next(libc, argv, d)) == [];
    assert Options(libc, argv, d) == Found(libc, argv, d, 0);
  }

  /** A vector in which no value is itself an option is well-formed if its last word is no option. */
  lemma {:induction false} PlainIsWellFormed(libc: Libc, argv: seq<Arg>, c: Cursor)
    requires forall i :: c.i <= i < |argv| && !argv[i].Other? ==> i + 1 < |argv| && argv[i + 1].Other?
    ensures WellFormed(libc, argv, c)
    decreases |argv| - c.i
  {
    if c.i < |argv| {
      PlainWord(libc, argv, c);
      PlainIsWellFormed(libc, argv, Next(libc, argv, c));
    }
  }

  /** The order in which a round makes its tests: --vni, --irq, --dl_indst, --dl_dst. */
  predicate TestedBefore(a: Arg, b: Arg) {
    || (a.VniName? && (b.IrqName? || b.DlIndstName? || b.DlDstName?))
    || (a.IrqName? && (b.DlIndstName? || b.DlDstName?))
    || (a.DlIndstName? && b.DlDstName?)
  }

  /** A value that is itself an option counts as both if it is tested for later in the round. */
  lemma {:induction false} LaterOptionAsValue(libc: Libc, argv: seq<Arg>, c: Cursor)
    requires c.i + 2 < |argv| && TestedBefore(argv[c.i], argv[c.i + 1]) && argv[c.i + 2].Other?
    ensures ValuesFollow(argv, c.i, 0) && Next(libc, argv, c).i == c.i + 3
    ensures Found(libc, argv, c, 0) == [OptionAt(libc, argv, c), OptionAt(libc, argv, OnValue(libc, argv, c))]
  {
    var d := OnValue(libc, argv, c);
    var e := OnValue(libc, argv, d);
    var k := argv[c.i].Rank() + 1;
    assert Passes(argv, d.i, k) && !Passes(argv, e.i, argv[d.i].Rank() + 1);
    assert RoundEnd(libc, argv, e, argv[d.i].Rank() + 1) == e;
    assert RoundEnd(libc, argv, d, k) == e;
    assert Found(libc, argv, e, argv[d.i].Rank() + 1) == [];
    assert Found(libc, argv, d, k) == [OptionAt(libc, argv, d)];
  }

  /** One that is tested for no later is only a value. */
  lemma {:induction false} EarlierOptionAsValue(libc: Libc, argv: seq<Arg>, c: Cursor)
    requires c.i + 1 < |argv| && !argv[c.i].Other? && !TestedBefore(argv[c.i], argv[c.i + 1])
    ensures ValuesFollow(argv, c.i, 0)
    ensures Next(libc, argv, c) == Cursor(c.i + 2, OnValue(libc, argv, c).dl)
    ensures Found(libc, argv, c, 0) == [OptionAt(libc, argv, c)]
  {
    var d := OnValue(libc, argv, c);
    assert !Passes(argv, d.i, argv[c.i].Rank() + 1);
    assert RoundEnd(libc, argv, d, argv[c.i].Rank() + 1) == d;
  }

  /** The client's handle on the control device: the ioctls it has issued, in order. Each is one call
      of the device; how the calls of several clients interleave is the subject of Sessions. */
  class FileDescriptor {
    var isOpen: bool
    var sent: seq<Cmd>

    constructor ()
      ensures isOpen && sent == []
    {
      isOpen, sent := true, [];
    }

    method Ioctl(cmd: Cmd)
      requires isOpen
      modifies `sent
      ensures sent == old(sent) + [cmd]
    {
      sent := sent + [cmd];
    }

    method Close()
      requires isOpen
      modifies `isOpen
      ensures !isOpen
    {
      isOpen := false;
    }
  }

  /** vse_ioctl_set_vni. */
  method IoctlSetVni(fd: FileDescriptor, host: Host, vni: U32)
    requires fd.isOpen
    modifies fd`sent
    ensures fd.sent == old(fd.sent) + Commands(host, Opt.Vni(vni))
  {
    fd.Ioctl(SetVni(vni));
  }

  /** vse_ioctl_set_irq: passes the address of the integer, of which the device reads one byte. */
  method IoctlSetIrq(fd: FileDescriptor, host: Host, irq: U32)
    requires fd.isOpen
    modifies fd`sent
    ensures fd.sent == old(fd.sent) + Commands(host, Irq(irq))
  {
    fd.Ioctl(SetIrq(FirstByte(host, irq)));
  }

  /** vse_ioctl_set_dl_indst: one ioctl for each octet. */
  method IoctlSetDlIndst(fd: FileDescriptor, host: Host, dl: Mac)
    requires fd.isOpen
    modifies fd`sent
    ensures fd.sent == old(fd.sent) + Commands(host, IndstMac(dl))
  {
    fd.Ioctl(SetDlIndst(0, dl[0]));
    fd.Ioctl(SetDlIndst(1, dl[1]));
    fd.Ioctl(SetDlIndst(2, dl[2]));
    fd.Ioctl(SetDlIndst(3, dl[3]));
    fd.Ioctl(SetDlIndst(4, dl[4]));
    fd.Ioctl(SetDlIndst(5, dl[5]));
  }

  /** vse_ioctl_set_dl_dst. */
  method IoctlSetDlDst(fd: FileDescriptor, host: Host, dl: Mac)
    requires fd.isOpen
    modifies fd`sent
    ensures fd.sent == old(fd.sent) + Commands(host, DstMac(dl))
  {
    fd.Ioctl(SetDlDst(0, dl[0]));
    fd.Ioctl(SetDlDst(1, dl[1]));
    fd.Ioctl(SetDlDst(2, dl[2]));
    fd.Ioctl(SetDlDst(3, dl[3]));
    fd.Ioctl(SetDlDst(4, dl[4]));
    fd.Ioctl(SetDlDst(5, dl[5]));
  }

  /** A test that the current word fails leaves the rest of the round as it is. */
  lemma {:induction false} TestFails(libc: Libc, argv: seq<Arg>, c: Cursor, k: nat)
    requires c.i < |argv| && k < TESTS && ValuesFollow(argv, c.i, k) && argv[c.i].Rank() != k
    ensures ValuesFollow(argv, c.i, k + 1)
    ensures Found(libc, argv, c, k + 1) == Found(libc, argv, c, k)
    ensures RoundEnd(libc, argv, c, k + 1) == RoundEnd(libc, argv, c, k)
  {
    assert Passes(argv, c.i, k) <==> Passes(argv, c.i, k + 1);
  }

  /** What has been sent and what the rest of the round finds make up the whole. */
  ghost predicate RoundOnTrack(host: Host, libc: Libc, argv: seq<Arg>, c: Cursor, k: nat, sent: seq<Cmd>,
                               whole: seq<Cmd>, end: Cursor) {
    && c.i < |argv| && ValuesFollow(argv, c.i, k)
    && RoundEnd(libc, argv, c, k) == end
    && sent + Body(host, Found(libc, argv, c, k)) == whole
  }

  lemma {:induction false} FailedTest(host: Host, libc: Libc, argv: seq<Arg>, c: Cursor, k: nat, sent: seq<Cmd>,
                                      whole: seq<Cmd>, end: Cursor)
    requires RoundOnTrack(host, libc, argv, c, k, sent, whole, end) && k < TESTS && argv[c.i].Rank() != k
    ensures RoundOnTrack(host, libc, argv, c, k + 1, sent, whole, end)
  {
    TestFails(libc, argv, c, k);
  }

  lemma {:induction false} PassedTest(host: Host, libc: Libc, argv: seq<Arg>, c: Cursor, k: nat, sent: seq<Cmd>,
                                      whole: seq<Cmd>, end: Cursor)
    requires RoundOnTrack(host, libc, argv, c, k, sent, whole, end) && k < TESTS && argv[c.i].Rank() == k
    ensures c.i + 1 < |argv|
    ensures RoundOnTrack(host, libc, argv, OnValue(libc, argv, c), k + 1,
                         sent + Commands(host, OptionAt(libc, argv, c)), whole, end)
  {
    var o, rest := OptionAt(libc, argv, c), Found(libc, argv, OnValue(libc, argv, c), k + 1);
    assert Found(libc, argv, c, k) == [o] + rest;
    BodyAppend(host, [o], rest);
    BodyOfOne(host, o);
    assert (sent + Commands(host, o)) + Body(host, rest) == sent + (Commands(host, o) + Body(host, rest));
  }

  lemma {:induction false} RoundIsOver(host: Host, libc: Libc, argv: seq<Arg>, c: Cursor, sent: seq<Cmd>,
                                       whole: seq<Cmd>, end: Cursor)
    requires RoundOnTrack(host, libc, argv, c, TESTS, sent, whole, end)
    ensures c == end && sent == whole
  {
    assert sent + [] == sent;
  }

  /** One round of the loop of main. The four tests are made one after the other at the current word,
      which an option has moved on to its value. */
  method OneRound(fd: FileDescriptor, host: Host, libc: Libc, argv: seq<Arg>, at: nat, octets: Mac)
    returns (i: nat, dl: Mac)
    requires fd.isOpen && at < |argv| && ValuesFollow(argv, at, 0)
    modifies fd`sent
    ensures Cursor(i, dl) == Next(libc, argv, Cursor(at, octets))
    ensures fd.sent == old(fd.sent) + Body(host, Found(libc, argv, Cursor(at, octets), 0))
  {
    ghost var start := Cursor(at, octets);
    ghost var end, whole := RoundEnd(libc, argv, start, 0), fd.sent + Body(host, Found(libc, argv, start, 0));
    i, dl := TestVni(fd, host, libc, argv, at, octets, whole, end);
    i, dl := TestIrq(fd, host, libc, argv, i, dl, whole, end);
    i, dl := TestDlIndst(fd, host, libc, argv, i, dl, whole, end);
    i, dl := TestDlDst(fd, host, libc, argv, i, dl, whole, end);
    RoundIsOver(host, libc, argv, Cursor(i, dl), fd.sent, whole, end);
    i := i + 1;
  }

  method TestVni(fd: FileDescriptor, host: Host, libc: Libc, argv: seq<Arg>, at: nat, octets: Mac,
                 ghost whole: seq<Cmd>, ghost end: Cursor)
    returns (i: nat, dl: Mac)
    requires fd.isOpen && RoundOnTrack(host, libc, argv, Cursor(at, octets), 0, fd.sent, whole, end)
    modifies fd`sent
    ensures RoundOnTrack(host, libc, argv, Cursor(i, dl), 1, fd.sent, whole, end)
  {
    i, dl := at, octets;
    if argv[i] == VniName {
      PassedTest(host, libc, argv, Cursor(i, dl), 0, fd.sent, whole, end);
      i := i + 1;
      IoctlSetVni(fd, host, libc.atoi(argv[i]));
    } else {
      FailedTest(host, libc, argv, Cursor(i, dl), 0, fd.sent, whole, end);
    }
  }

  method TestIrq(fd: FileDescriptor, host: Host, libc: Libc, argv: seq<Arg>, at: nat, octets: Mac,
                 ghost whole: seq<Cmd>, ghost end: Cursor)
    returns (i: nat, dl: Mac)
    requires fd.isOpen && RoundOnTrack(host, libc, argv, Cursor(at, octets), 1, fd.sent, whole, end)
    modifies fd`sent
    ensures RoundOnTrack(host, libc, argv, Cursor(i, dl), 2, fd.sent, whole, end)
  {
    i, dl := at, octets;
    if argv[i] == IrqName {
      PassedTest(host, libc, argv, Cursor(i, dl), 1, fd.sent, whole, end);
      i := i + 1;
      IoctlSetIrq(fd, host, libc.atoi(argv[i]));
    } else {
      FailedTest(host, libc, argv, Cursor(i, dl), 1, fd.sent, whole, end);
    }
  }

  method TestDlIndst(fd: FileDescriptor, host: Host, libc: Libc, argv: seq<Arg>, at: nat, octets: Mac,
                     ghost whole: seq<Cmd>, ghost end: Cursor)
    returns (i: nat, dl: Mac)
    requires fd.isOpen && RoundOnTrack(host, libc, argv, Cursor(at, octets), 2, fd.sent, whole, end)
    modifies fd`sent
    ensures RoundOnTrack(host, libc, argv, Cursor(i, dl), 3, fd.sent, whole, end)
  {
    i, dl := at, octets;
    if argv[i] == DlIndstName {
      PassedTest(host, libc, argv, Cursor(i, dl), 2, fd.sent, whole, end);
      i := i + 1;
      dl := libc.sscanf(argv[i], dl);
      IoctlSetDlIndst(fd, host, dl);
    } else {
      FailedTest(host, libc, argv, Cursor(i, dl), 2, fd.sent, whole, end);
    }
  }

  method TestDlDst(fd: FileDescriptor, host: Host, libc: Libc, argv: seq<Arg>, at: nat, octets: Mac,
                   ghost whole: seq<Cmd>, ghost end: Cursor)
    returns (i: nat, dl: Mac)
    requires fd.isOpen && RoundOnTrack(host, libc, argv, Cursor(at, octets), 3, fd.sent, whole, end)
    modifies fd`sent
    ensures RoundOnTrack(host, libc, argv, Cursor(i, dl), 4, fd.sent, whole, end)
  {
    i, dl := at, octets;
    if argv[i] == DlDstName {
      PassedTest(host, libc, argv, Cursor(i, dl), 3, fd.sent, whole, end);
      i := i + 1;
      dl := libc.sscanf(argv[i], dl);
      IoctlSetDlDst(fd, host, dl);
    } else {
      FailedTest(host, libc, argv, Cursor(i, dl), 3, fd.sent, whole, end);
    }
  }

  /** Issuing what one round finds keeps sent and still to come together the same. */
  lemma {:induction false} RoundAdvances(host: Host, libc: Libc, argv: seq<Arg>, c: Cursor, sent: seq<Cmd>)
    requires c.i < |argv| && WellFormed(libc, argv, c)
    ensures sent + Body(host, Options(libc, argv, c))
         == (sent + Body(host, Found(libc, argv, c, 0))) + Body(host, Options(libc, argv, Next(libc, argv, c)))
  {
    var found, rest := Found(libc, argv, c, 0), Options(libc, argv, Next(libc, argv, c));
    BodyAppend(host, found, rest);
    assert (sent + Body(host, found)) + Body(host, rest) == sent + (Body(host, found) + Body(host, rest));
  }

  lemma {:induction false} NothingRemains(host: Host, libc: Libc, argv: seq<Arg>, c: Cursor, sent: seq<Cmd>)
    requires c.i >= |argv|
    ensures sent + Body(host, Options(libc, argv, c)) == sent
  {
  }

  /** The loop of main. The address buffer starts out with whatever is on the stack. */
  method OptionLoop(fd: FileDescriptor, host: Host, libc: Libc, argv: seq<Arg>, stack: Mac)
    requires fd.isOpen && WellFormed(libc, argv, Cursor(0, stack))
    modifies fd`sent
    ensures fd.sent == old(fd.sent) + Body(host, Options(libc, argv, Cursor(0, stack)))
  {
    ghost var whole := fd.sent + Body(host, Options(libc, argv, Cursor(0, stack)));
    var i, dl := 0, stack;
    while i < |argv|
      invariant 0 <= i && WellFormed(libc, argv, Cursor(i, dl))
      invariant fd.sent + Body(host, Options(libc, argv, Cursor(i, dl))) == whole
    {
      RoundAdvances(host, libc, argv, Cursor(i, dl), fd.sent);
      i, dl := OneRound(fd, host, libc, argv, i, dl);
    }
    NothingRemains(host, libc, argv, Cursor(i, dl), fd.sent);
  }

  /** What main does between open and close. */
  method DriveDevice(fd: FileDescriptor, host: Host, libc: Libc, argv: seq<Arg>, stack: Mac)
    requires fd.isOpen && fd.sent == [] && WellFormed(libc, argv, Cursor(0, stack))
    modifies fd`sent
    ensures fd.sent == SessionCommands(host, Options(libc, argv, Cursor(0, stack)))
  {
    fd.Ioctl(InitWildcards);
    assert fd.sent == [InitWildcards];
    ghost var body := Body(host, Options(libc, argv, Cursor(0, stack)));
    OptionLoop(fd, host, libc, argv, stack);
    assert fd.sent == [InitWildcards] + body;
    fd.Ioctl(SetEntry);
  }

  /** main: a client that is given arguments and gets the device issues exactly the session its
      options spell out and closes the device; without arguments, or when open fails, it issues
      nothing. */
  method RunClient(host: Host, libc: Libc, argv: seq<Arg>, stack: Mac, granted: bool)
    returns (status: int, fd: FileDescriptor?)
    requires |argv| >= 2 && granted ==> WellFormed(libc, argv, Cursor(0, stack))
    ensures |argv| < 2 || !granted ==> status == -1 && fd == null
    ensures |argv| >= 2 && granted ==> status == 0 && fd != null && !fd.isOpen
    ensures |argv| >= 2 && granted ==> fd.sent == SessionCommands(host, Options(libc, argv, Cursor(0, stack)))
  {
    if |argv| < 2 {
      return -1, null;
    }
    if !granted {
      return -1, null;
    }
    fd := new FileDescriptor();
    DriveDevice(fd, host, libc, argv, stack);
    fd.Close();
    return 0, fd;
  }
}
