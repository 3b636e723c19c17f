/** Client sessions: any number of command-line clients open, drive and close the control device in
    any interleaving. Each system call is one atomic step (an assumption for device_open, which
    tests and increments its counter without a lock). */
module Sessions {
  import opened FlowSpec
  import opened Staging

  /** The ioctl commands a client issues when it runs to the end. */
  type Scripts = nat -> seq<Cmd>

  /** How far a client has got: it was refused, has issued the first k commands and holds the
      handle, or has released it after k commands (a killed client releases early). */
  datatype Phase = Refused | Running(k: nat) | Closed(k: nat)

  datatype Sys = Sys(dev: Dev, opens: int, phase: map<nat, Phase>)

  datatype Event = Open(c: nat) | Ioctl(c: nat, memory: bool) | Close(c: nat)

  predicate Enabled(scripts: Scripts, s: Sys, e: Event) {
    match e
    case Open(c) => c !in s.phase
    case Ioctl(c, _) => c in s.phase && s.phase[c].Running? && s.phase[c].k < |scripts(c)|
    case Close(c) => c in s.phase && s.phase[c].Running?
  }

  function Step(scripts: Scripts, s: Sys, e: Event): Sys
    requires Enabled(scripts, s, e)
  {
    match e
    case Open(c) =>
      if s.opens != 0 then s.(phase := s.phase[c := Refused])
      else s.(opens := s.opens + 1, phase := s.phase[c := Running(0)])
    case Ioctl(c, memory) =>
      var k := s.phase[c].k;
      s.(dev := Exec(s.dev, Call(scripts(c)[k], memory)), phase := s.phase[c := Running(k + 1)])
    case Close(c) => s.(opens := s.opens - 1, phase := s.phase[c := Closed(s.phase[c].k)])
  }

  const LOADED := Sys(BOOT, 0, map[])

  predicate Possible(scripts: Scripts, es: seq<Event>)
    decreases es, 0
  {
    es == [] || (Possible(scripts, es[..|es| - 1]) && Enabled(scripts, After(scripts, es[..|es| - 1]), es[|es| - 1]))
  }

  function After(scripts: Scripts, es: seq<Event>): Sys
    requires Possible(scripts, es)
    decreases es, 1
  {
    if es == [] then LOADED else Step(scripts, After(scripts, es[..|es| - 1]), es[|es| - 1])
  }

  /** The clients that got the device, in the order they opened it. */
  function OpenOrder(scripts: Scripts, es: seq<Event>): seq<nat>
    requires Possible(scripts, es)
  {
    if es == [] then []
    else
      var n := |es| - 1;
      var order := OpenOrder(scripts, es[..n]);
      if es[n].Open? && After(scripts, es[..n]).opens == 0 then order + [es[n].c] else order
  }

  /** The calls one client has made: its own script, with the allocation outcomes it met. */
  function Log(scripts: Scripts, es: seq<Event>, c: nat): seq<Call> {
    if es == [] then []
    else
      var n := |es| - 1;
      var log := Log(scripts, es[..n], c);
      if es[n].Ioctl? && es[n].c == c && |log| < |scripts(c)|
      then log + [Call(scripts(c)[|log|], es[n].memory)]
      else log
  }

  /** The sessions run one after another: the calls of the first client, then those of the second, and
      so on. */
  function AllLogs(scripts: Scripts, es: seq<Event>, order: seq<nat>): seq<Call> {
    if order == [] then []
    else AllLogs(scripts, es, order[..|order| - 1]) + Log(scripts, es, order[|order| - 1])
  }

  /** What a session adds to a table, whatever the table and the staging record were. */
  function Contribution(log: seq<Call>): seq<Entry> {
    Run(BOOT, log).table
  }

  /** The contributions of the sessions, the latest in front. */
  function Contributions(scripts: Scripts, es: seq<Event>, order: seq<nat>): seq<Entry> {
    if order == [] then []
    else
      Contribution(Log(scripts, es, order[|order| - 1])) + Contributions(scripts, es, order[..|order| - 1])
  }

  /** A session that starts with INIT forgets everything it found: it stages the same records and
      adds the same entries from any state of the device. */
  lemma {:induction false} SessionForgets(d: Dev, log: seq<Call>)
    requires log != [] && log[0].cmd.InitWildcards?
    ensures Run(d, log).table == Contribution(log) + d.table
    ensures Run(d, log).stage == Run(BOOT, log).stage
  {
    var n := |log| - 1;
    if n == 0 {
      assert Run(d, log[..0]) == d && Run(BOOT, log[..0]) == BOOT;
    } else {
      SessionForgets(d, log[..n]);
    }
  }

  // ---------- Every interleaving is a sequence of sessions ----------

  ghost predicate StartWithInit(scripts: Scripts) {
    forall c :: scripts(c) != [] ==> scripts(c)[0] == InitWildcards
  }

  /** The calls a client has made are as many as its phase says, and none if it never got in. */
  lemma {:induction false} LogFollowsPhase(scripts: Scripts, es: seq<Event>, c: nat)
    requires Possible(scripts, es)
    ensures var s := After(scripts, es);
      |Log(scripts, es, c)| == (if c in s.phase && !s.phase[c].Refused? then s.phase[c].k else 0)
    ensures |Log(scripts, es, c)| <= |scripts(c)|
    ensures forall i :: 0 <= i < |Log(scripts, es, c)| ==> Log(scripts, es, c)[i].cmd == scripts(c)[i]
  {
    if es != [] {
      LogFollowsPhase(scripts, es[..|es| - 1], c);
    }
  }

  /** A client holds the device exactly while it runs; it is then the last to have opened it. */
  ghost predicate Exclusive(s: Sys, order: seq<nat>) {
    && (s.opens == 0 || s.opens == 1)
    && (forall c :: c in s.phase && s.phase[c].Running? ==> s.opens == 1 && order != [] && c == order[|order| - 1])
    && (s.opens == 1 ==> order != [] && order[|order| - 1] in s.phase && s.phase[order[|order| - 1]].Running?)
    && (forall i :: 0 <= i < |order| ==> order[i] in s.phase && !s.phase[order[i]].Refused?)
    && (forall i, j :: 0 <= i < j < |order| ==> order[i] != order[j])
  }

  /** At most one handle is open in every reachable state, whatever the clients do. */
  lemma {:induction false} MutualExclusion(scripts: Scripts, es: seq<Event>)
    requires Possible(scripts, es)
    ensures Exclusive(After(scripts, es), OpenOrder(scripts, es))
  {
    if es != [] {
      var n := |es| - 1;
      MutualExclusion(scripts, es[..n]);
      var s, order := After(scripts, es[..n]), OpenOrder(scripts, es[..n]);
      ExclusiveStep(scripts, s, order, es[n]);
    }
  }

  lemma {:induction false} ExclusiveStep(scripts: Scripts, s: Sys, order: seq<nat>, e: Event)
    requires Exclusive(s, order) && Enabled(scripts, s, e)
    ensures Exclusive(Step(scripts, s, e), if e.Open? && s.opens == 0 then order + [e.c] else order)
  {
  }

  lemma {:induction false} SameLogs(scripts: Scripts, es: seq<Event>, fs: seq<Event>, order: seq<nat>)
    requires forall c :: c in order ==> Log(scripts, es, c) == Log(scripts, fs, c)
    ensures AllLogs(scripts, es, order) == AllLogs(scripts, fs, order)
  {
    if order != [] {
      SameLogs(scripts, es, fs, order[..|order| - 1]);
    }
  }

  lemma {:induction false} AllLogsSnoc(scripts: Scripts, es: seq<Event>, earlier: seq<nat>, c: nat)
    ensures AllLogs(scripts, es, earlier + [c]) == AllLogs(scripts, es, earlier) + Log(scripts, es, c)
  {
    assert (earlier + [c])[..|earlier|] == earlier;
  }

  /** One more event in a run extends the serial order of all calls by the call it makes, if any. */
  lemma {:induction false} SerialStep(scripts: Scripts, es: seq<Event>)
    requires es != [] && Possible(scripts, es)
    ensures var n := |es| - 1;
      var before := AllLogs(scripts, es[..n], OpenOrder(scripts, es[..n]));
      AllLogs(scripts, es, OpenOrder(scripts, es)) ==
        if es[n].Ioctl?
        then before + [Call(scripts(es[n].c)[After(scripts, es[..n]).phase[es[n].c].k], es[n].memory)]
        else before
  {
    var n := |es| - 1;
    var fs, c := es[..n], es[n].c;
    var order := OpenOrder(scripts, fs);
    MutualExclusion(scripts, fs);
    LogFollowsPhase(scripts, fs, c);
    if es[n].Ioctl? {
      SerialIoctl(scripts, es);
    } else {
      SameLogs(scripts, es, fs, order);
      AllLogsSnoc(scripts, es, order, c);
    }
  }

  lemma {:induction false} SerialIoctl(scripts: Scripts, es: seq<Event>)
    requires es != [] && es[|es| - 1].Ioctl? && Possible(scripts, es)
    ensures var n := |es| - 1;
      AllLogs(scripts, es, OpenOrder(scripts, es)) ==
        AllLogs(scripts, es[..n], OpenOrder(scripts, es[..n]))
        + [Call(scripts(es[n].c)[After(scripts, es[..n]).phase[es[n].c].k], es[n].memory)]
  {
    var n := |es| - 1;
    var fs, c := es[..n], es[n].c;
    MutualExclusion(scripts, fs);
    LogFollowsPhase(scripts, fs, c);
    var order := OpenOrder(scripts, fs);
    var earlier := order[..|order| - 1];
    assert order == earlier + [c];
    SameLogs(scripts, es, fs, earlier);
    AllLogsSnoc(scripts, es, earlier, c);
    AllLogsSnoc(scripts, fs, earlier, c);
  }

  /** Only the client that opened the device last makes calls, so the calls of any interleaving, in the
      order in which they were made, are those of whole sessions one after another. */
  lemma {:induction false} RunIsSerial(scripts: Scripts, es: seq<Event>)
    requires Possible(scripts, es)
    ensures After(scripts, es).dev == Run(BOOT, AllLogs(scripts, es, OpenOrder(scripts, es)))
  {
    if es != [] {
      var n := |es| - 1;
      RunIsSerial(scripts, es[..n]);
      SerialStep(scripts, es);
      var calls := AllLogs(scripts, es, OpenOrder(scripts, es));
      if es[n].Ioctl? {
        assert calls[..|calls| - 1] == AllLogs(scripts, es[..n], OpenOrder(scripts, es[..n]));
      }
    }
  }

  /** Sessions run one after another add what each of them adds alone. */
  lemma {:induction false} SerialContributions(scripts: Scripts, es: seq<Event>, order: seq<nat>)
    requires Possible(scripts, es) && StartWithInit(scripts)
    ensures Run(BOOT, AllLogs(scripts, es, order)).table == Contributions(scripts, es, order)
  {
    if order != [] {
      var earlier, log := order[..|order| - 1], Log(scripts, es, order[|order| - 1]);
      SerialContributions(scripts, es, earlier);
      RunAppend(BOOT, AllLogs(scripts, es, earlier), log);
      LogFollowsPhase(scripts, es, order[|order| - 1]);
      if log != [] {
        SessionForgets(Run(BOOT, AllLogs(scripts, es, earlier)), log);
      }
    }
  }

  /** For every interleaving of any number of clients, the device ends as if the sessions that got it
      had run one after another in the order they opened it, and each adds to the table what its own
      calls alone determine. */
  lemma {:induction false} SessionsAreSerialisable(scripts: Scripts, es: seq<Event>)
    requires Possible(scripts, es) && StartWithInit(scripts)
    ensures After(scripts, es).dev == Run(BOOT, AllLogs(scripts, es, OpenOrder(scripts, es)))
    ensures After(scripts, es).dev.table == Contributions(scripts, es, OpenOrder(scripts, es))
  {
    RunIsSerial(scripts, es);
    SerialContributions(scripts, es, OpenOrder(scripts, es));
  }
}
