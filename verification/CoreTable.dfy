/** vse_core_table.c: sampling the CPUs' busy time into one-byte loads, and choosing a core by them.
    CPUs are numbered from 0 and all online. */
module CoreTable {
  const NOT_VM := 0xff
  const THRESHOLD := 40
  const U64 := 0x1_0000_0000_0000_0000

  /** Busy time of one CPU in jiffies, in the three classes that are sampled. */
  datatype Busy = Busy(user: nat, nice: nat, system: nat) {
    function Total(): nat { user + nice + system }
  }

  /** What 64-bit counters show of it. */
  function Register(b: Busy): Busy {
    Busy(b.user % U64, b.nice % U64, b.system % U64)
  }

  /** A 64-bit subtraction. */
  function Minus(a: nat, b: nat): nat { (a - b) % U64 }

  /** cputime64_to_clock_t, with d jiffies to the clock tick: whole ticks only. */
  function Ticks(jiffies: nat, d: nat): nat
    requires d > 0
  {
    if jiffies < d then 0 else 1 + Ticks(jiffies - d, d)
  }

  lemma {:induction false} TicksIsDivision(jiffies: nat, d: nat)
    requires d > 0
    ensures Ticks(jiffies, d) == jiffies / d
  {
    var q, r := jiffies / d, jiffies % d;
    TickBound(jiffies, d);
    QuotientUnique(d, Ticks(jiffies, d), jiffies - d * Ticks(jiffies, d), q, r);
  }

  lemma {:induction false} QuotientUnique(d: nat, a: nat, x: nat, b: nat, y: nat)
    requires x < d && y < d && d * a + x == d * b + y
    ensures a == b
  {
    if a < b {
      assert d * (a + 1) == d * a + d;
      Monotone(d, a + 1, b);
    } else if b < a {
      assert d * (b + 1) == d * b + d;
      Monotone(d, b + 1, a);
    }
  }

  /** The sum of the three tick counts, before it is stored. */
  function TickSum(prev: Busy, now: Busy, d: nat): nat
    requires d > 0
  {
    Ticks(Minus(now.user, prev.user), d)
    + Ticks(Minus(now.nice, prev.nice), d)
    + Ticks(Minus(now.system, prev.system), d)
  }

  /** The load as it is stored, in one byte. */
  function Load(prev: Busy, now: Busy, d: nat): nat
    requires d > 0
  {
    TickSum(prev, now, d) % 0x100
  }

  datatype Core = Core(load: nat, vmId: nat)

  predicate Eligible(c: Core) { c.load < THRESHOLD && c.vmId != NOT_VM }

  class Sampler {
    const d: nat
    const cores: array<Core>
    const prev: array<Busy>
    const now: array<Busy>

    ghost predicate Valid() {
      && d > 0
      && prev.Length == cores.Length && now.Length == cores.Length
      && prev != now
    }

    /** vse_init_core_table: no machine assigned, and zeroed samples. */
    constructor (n: nat, d: nat)
      requires d > 0
      ensures Valid() && this.d == d && cores.Length == n
      ensures forall i :: 0 <= i < n ==> cores[i] == Core(0, 0xff) && prev[i] == Busy(0, 0, 0)
      ensures fresh(cores) && fresh(prev) && fresh(now)
    {
      this.d := d;
      cores := new Core[n](_ => Core(0, NOT_VM));
      prev := new Busy[n](_ => Busy(0, 0, 0));
      now := new Busy[n](_ => Busy(0, 0, 0));
    }

    /** vse_get_cpu_status: reads the kernel's counters. */
    method GetCpuStatus(kstat: seq<Busy>)
      requires Valid() && |kstat| == now.Length
      modifies now
      ensures now[..] == kstat
    {
      for i := 0 to now.Length
        invariant now[..i] == kstat[..i]
      {
        now[i] := kstat[i];
      }
    }

    /** vse_get_core_table_load. */
    method GetCoreTableLoad()
      requires Valid()
      modifies cores
      ensures forall i :: 0 <= i < cores.Length ==>
        cores[i] == Core(Load(prev[i], now[i], d), old(cores[i].vmId))
    {
      for i := 0 to cores.Length
        invariant forall j :: 0 <= j < i ==> cores[j] == Core(Load(prev[j], now[j], d), old(cores[j].vmId))
        invariant forall j :: i <= j < cores.Length ==> cores[j] == old(cores[j])
      {
        var user := Minus(now[i].user, prev[i].user);
        var nice := Minus(now[i].nice, prev[i].nice);
        var system := Minus(now[i].system, prev[i].system);
        cores[i] := cores[i].(load := (Ticks(user, d) + Ticks(nice, d) + Ticks(system, d)) % 0x100);
      }
    }

    /** vse_copy_prev_status. */
    method CopyPrevStatus()
      requires Valid()
      modifies prev
      ensures prev[..] == now[..]
    {
      for i := 0 to prev.Length
        invariant prev[..i] == now[..i]
      {
        prev[i] := now[i];
      }
    }

    /** vse_update_core_table: every load is that of the interval since the previous update, and the
        samples taken now start the next interval. */
    method Update(kstat: seq<Busy>)
      requires Valid() && |kstat| == cores.Length
      modifies cores, prev, now
      ensures prev[..] == kstat
      ensures forall i :: 0 <= i < cores.Length ==>
        cores[i] == Core(Load(old(prev[i]), kstat[i], d), old(cores[i].vmId))
    {
      GetCpuStatus(kstat);
      assert forall i :: 0 <= i < |kstat| ==> now[i] == now[..][i] == kstat[i];
      GetCoreTableLoad();
      CopyPrevStatus();
    }

    method LoadRow() returns (row: seq<nat>)
      ensures |row| == cores.Length && forall i :: 0 <= i < cores.Length ==> row[i] == cores[i].load
    {
      row := [];
      for i := 0 to cores.Length
        invariant |row| == i && forall j :: 0 <= j < i ==> row[j] == cores[j].load
      {
        row := row + [cores[i].load];
      }
    }

    /** An update and the loads it leaves. */
    method UpdateAndShow(kstat: seq<Busy>) returns (row: seq<nat>)
      requires Valid() && |kstat| == cores.Length
      modifies cores, prev, now
      ensures prev[..] == kstat && |row| == cores.Length
      ensures forall i :: 0 <= i < cores.Length ==>
        row[i] == Load(old(prev[..])[i], kstat[i], d) && cores[i] == Core(row[i], old(cores[i].vmId))
    {
      Update(kstat);
      row := LoadRow();
    }

    /** The timer at work: update after update, each recording the loads it leaves. Every CPU's loads
        are those of its own successive intervals. */
    method RunTimer(samples: seq<seq<Busy>>) returns (loads: seq<seq<nat>>)
      requires Valid() && forall k :: 0 <= k < |samples| ==> |samples[k]| == cores.Length
      modifies cores, prev, now
      ensures Tracks(old(prev[..]), samples, loads, prev[..], d)
      ensures forall i :: 0 <= i < cores.Length ==>
        cores[i] == Core(if loads == [] then old(cores[i].load) else loads[|loads| - 1][i], old(cores[i].vmId))
    {
      loads := [];
      ghost var start := prev[..];
      for k := 0 to |samples|
        invariant Tracks(start, samples[..k], loads, prev[..], d)
        invariant forall i :: 0 <= i < cores.Length ==>
          cores[i] == Core(if loads == [] then old(cores[i].load) else loads[|loads| - 1][i], old(cores[i].vmId))
      {
        ghost var before := prev[..];
        var row := UpdateAndShow(samples[k]);
        TracksStep(start, samples[..k], loads, before, samples[k], row, d);
        assert samples[..k + 1] == samples[..k] + [samples[k]];
        loads := loads + [row];
      }
      assert samples[..|samples|] == samples;
    }

    /** vse_core_selection: the first eligible core, or the current one if there is none. */
    method CoreSelection(current: nat) returns (irq: nat)
      requires Valid()
      ensures (forall i :: 0 <= i < cores.Length ==> !Eligible(cores[i])) ==> irq == current
      ensures (exists i :: 0 <= i < cores.Length && Eligible(cores[i])) ==>
        irq < cores.Length && Eligible(cores[irq]) && forall j :: 0 <= j < irq ==> !Eligible(cores[j])
      ensures forall i :: 0 <= i < cores.Length && cores[i].load < 40 && cores[i].vmId != 255 ==>
        irq <= i && cores[irq].load < 40 && cores[irq].vmId != 255
      ensures irq == current || (irq < cores.Length && cores[irq].load < 40 && cores[irq].vmId != 255)
    {
      irq := current;
      for i := 0 to cores.Length
        invariant irq == current
        invariant forall j :: 0 <= j < i ==> !Eligible(cores[j])
      {
        if cores[i].load < THRESHOLD && cores[i].vmId != NOT_VM {
          irq := i;
          break;
        }
      }
    }
  }

  // ---------- Accounting over whole runs ----------

  /** The loads one CPU shows over a run of updates; each interval starts where the last one ended. */
  function Loads(prev: Busy, samples: seq<Busy>, d: nat): seq<nat>
    requires d > 0
    decreases samples
  {
    if samples == [] then [] else [Load(prev, samples[0], d)] + Loads(samples[0], samples[1..], d)
  }

  function Column<T>(rows: seq<seq<T>>, i: nat): (r: seq<T>)
    requires forall k :: 0 <= k < |rows| ==> i < |rows[k]|
    ensures |r| == |rows| && forall k :: 0 <= k < |rows| ==> r[k] == rows[k][i]
  {
    seq(|rows|, k requires 0 <= k < |rows| => rows[k][i])
  }

  lemma {:induction false} ColumnAppend<T>(rows: seq<seq<T>>, row: seq<T>, i: nat)
    requires i < |row| && forall k :: 0 <= k < |rows| ==> i < |rows[k]|
    ensures forall k :: 0 <= k < |rows + [row]| ==> i < |(rows + [row])[k]|
    ensures Column(rows + [row], i) == Column(rows, i) + [row[i]]
  {
  }

  function LastSample(prev: Busy, samples: seq<Busy>): Busy {
    if samples == [] then prev else samples[|samples| - 1]
  }

  /** CPU by CPU, the recorded loads are those of the intervals between the samples, the first of them
      starting at the initial sample; last holds the latest samples. */
  ghost predicate Tracks(start: seq<Busy>, samples: seq<seq<Busy>>, loads: seq<seq<nat>>, last: seq<Busy>, d: nat)
    requires d > 0
  {
    && |loads| == |samples| && |last| == |start|
    && (forall k :: 0 <= k < |samples| ==> |samples[k]| == |start| && |loads[k]| == |start|)
    && (forall i :: 0 <= i < |start| ==> Column(loads, i) == Loads(start[i], Column(samples, i), d))
    && (forall i :: 0 <= i < |start| ==> last[i] == LastSample(start[i], Column(samples, i)))
  }

  lemma {:induction false} TracksStep(start: seq<Busy>, samples: seq<seq<Busy>>, loads: seq<seq<nat>>,
                                      last: seq<Busy>, now: seq<Busy>, row: seq<nat>, d: nat)
    requires d > 0 && Tracks(start, samples, loads, last, d) && |now| == |row| == |start|
    requires forall i :: 0 <= i < |start| ==> row[i] == Load(last[i], now[i], d)
    ensures Tracks(start, samples + [now], loads + [row], now, d)
  {
    forall i | 0 <= i < |start|
      ensures Column(loads + [row], i) == Loads(start[i], Column(samples + [now], i), d)
      ensures now[i] == LastSample(start[i], Column(samples + [now], i))
    {
      ColumnAppend(loads, row, i);
      ColumnAppend(samples, now, i);
      LoadsAppend(start[i], Column(samples, i), now[i], d);
    }
  }

  lemma {:induction false} LoadsAppend(prev: Busy, samples: seq<Busy>, b: Busy, d: nat)
    requires d > 0
    ensures Loads(prev, samples + [b], d) == Loads(prev, samples, d) + [Load(LastSample(prev, samples), b, d)]
    decreases samples
  {
    if samples == [] {
      assert [b][1..] == [];
    } else {
      assert (samples + [b])[1..] == samples[1..] + [b];
      LoadsAppend(samples[0], samples[1..], b, d);
    }
  }

  function Sum(s: seq<nat>): nat {
    if s == [] then 0 else s[0] + Sum(s[1..])
  }

  function Registers(bs: seq<Busy>): seq<Busy> {
    if bs == [] then [] else [Register(bs[0])] + Registers(bs[1..])
  }

  /** True busy time at two samples: it only grows, in each class by less than 2^64. */
  predicate Grows(b0: Busy, b1: Busy) {
    && b0.user <= b1.user < b0.user + U64
    && b0.nice <= b1.nice < b0.nice + U64
    && b0.system <= b1.system < b0.system + U64
  }

  /** An interval whose ticks fit in the byte they are stored in. */
  predicate Interval(b0: Busy, b1: Busy, d: nat)
    requires d > 0
  {
    Grows(b0, b1) && TickSum(Register(b0), Register(b1), d) < 0x100
  }

  ghost predicate AllGrow(bs: seq<Busy>) {
    forall i :: 0 <= i < |bs| - 1 ==> Grows(bs[i], bs[i + 1])
  }

  lemma {:induction false} WrapsAway(a: nat, b: nat)
    requires b <= a < b + U64
    ensures Minus(a % U64, b % U64) == a - b
  {
  }

  lemma {:induction false} TickBound(x: nat, d: nat)
    requires d > 0
    ensures 0 <= x - d * Ticks(x, d) <= d - 1
  {
    if x >= d {
      TickBound(x - d, d);
      assert d * (1 + Ticks(x - d, d)) == d + d * Ticks(x - d, d);
    }
  }

  lemma {:induction false} Distribute(d: nat, x: nat, y: nat, z: nat)
    ensures d * (x + y + z) == d * x + d * y + d * z
  {
  }

  lemma {:induction false} TickSumIsTicks(b0: Busy, b1: Busy, d: nat)
    requires d > 0 && Grows(b0, b1)
    ensures TickSum(Register(b0), Register(b1), d) ==
      Ticks(b1.user - b0.user, d) + Ticks(b1.nice - b0.nice, d) + Ticks(b1.system - b0.system, d)
  {
    WrapsAway(b1.user, b0.user);
    WrapsAway(b1.nice, b0.nice);
    WrapsAway(b1.system, b0.system);
  }

  /** The ticks of an interval: each class is divided on its own, and the quotients are added. */
  lemma {:induction false} TickSumIsQuotients(b0: Busy, b1: Busy, d: nat)
    requires d > 0 && Grows(b0, b1)
    ensures TickSum(Register(b0), Register(b1), d) ==
      (b1.user - b0.user) / d + (b1.nice - b0.nice) / d + (b1.system - b0.system) / d
  {
    TickSumIsTicks(b0, b1, d);
    TicksIsDivision(b1.user - b0.user, d);
    TicksIsDivision(b1.nice - b0.nice, d);
    TicksIsDivision(b1.system - b0.system, d);
  }

  /** Counters and their differences wrap at 64 bits, loads at 8. */
  lemma {:induction false} Widths(prev: Busy, now: Busy, d: nat)
    requires d > 0
    ensures Register(Busy(0xffff_ffff_ffff_ffff, 0xffff_ffff_ffff_ffff, 0x1_0000_0000_0000_0000))
         == Busy(0xffff_ffff_ffff_ffff, 0xffff_ffff_ffff_ffff, 0)
    ensures Minus(0, 0xffff_ffff_ffff_ffff) == 1
    ensures 0 <= Load(prev, now, d) < 256 && (TickSum(prev, now, d) - Load(prev, now, d)) % 256 == 0
  {
  }

  lemma {:induction false} ThreeTicks(u: nat, n: nat, s: nat, d: nat)
    requires d > 0
    ensures 0 <= (u + n + s) - d * (Ticks(u, d) + Ticks(n, d) + Ticks(s, d)) <= 3 * (d - 1)
  {
    TickBound(u, d);
    TickBound(n, d);
    TickBound(s, d);
    Distribute(d, Ticks(u, d), Ticks(n, d), Ticks(s, d));
  }

  lemma {:induction false} TickSumBound(b0: Busy, b1: Busy, d: nat)
    requires d > 0 && Grows(b0, b1)
    ensures 0 <= (b1.Total() - b0.Total()) - d * TickSum(Register(b0), Register(b1), d) <= 3 * (d - 1)
  {
    TickSumIsTicks(b0, b1, d);
    TicksBound(b1.user - b0.user, b1.nice - b0.nice, b1.system - b0.system, d, TickSum(Register(b0), Register(b1), d));
  }

  lemma {:induction false} TicksBound(u: nat, n: nat, s: nat, d: nat, sum: nat)
    requires d > 0 && sum == Ticks(u, d) + Ticks(n, d) + Ticks(s, d)
    ensures 0 <= (u + n + s) - d * sum <= 3 * (d - 1)
  {
    ThreeTicks(u, n, s, d);
  }

  lemma {:induction false} ByteLoss(d: nat, sum: nat, busy: int)
    requires d > 0 && 0 <= busy - d * sum <= 3 * (d - 1)
    ensures 0 <= busy - d * (sum % 0x100) <= 3 * (d - 1) <==> sum < 0x100
  {
    if sum >= 0x100 {
      Monotone(d, sum % 0x100 + 0x100, sum);
      Distribute(d, sum % 0x100, 0x100, 0);
    }
  }

  /** One interval: the stored load understates the busy time by less than three ticks exactly when
      the ticks fit in the byte. */
  lemma {:induction false} LoadIsExactUnlessTruncated(b0: Busy, b1: Busy, d: nat)
    requires d > 0 && Grows(b0, b1)
    ensures 0 <= (b1.Total() - b0.Total()) - d * Load(Register(b0), Register(b1), d) <= 3 * (d - 1)
       <==> TickSum(Register(b0), Register(b1), d) < 0x100
  {
    TickSumBound(b0, b1, d);
    ByteLoss(d, TickSum(Register(b0), Register(b1), d), b1.Total() - b0.Total());
  }

  /** The ticks of each interval before they are stored. */
  function TickSums(prev: Busy, samples: seq<Busy>, d: nat): seq<nat>
    requires d > 0
    decreases samples
  {
    if samples == [] then [] else [TickSum(prev, samples[0], d)] + TickSums(samples[0], samples[1..], d)
  }

  /** How often the one-byte loads wrapped. */
  function Wraps(sums: seq<nat>): nat {
    if sums == [] then 0 else sums[0] / 0x100 + Wraps(sums[1..])
  }

  lemma {:induction false} LoadsAreLowBytes(prev: Busy, samples: seq<Busy>, d: nat)
    requires d > 0
    ensures Sum(TickSums(prev, samples, d)) == Sum(Loads(prev, samples, d)) + 0x100 * Wraps(TickSums(prev, samples, d))
    decreases samples
  {
    if samples != [] {
      LoadsAreLowBytes(samples[0], samples[1..], d);
      var first := TickSum(prev, samples[0], d);
      assert TickSums(prev, samples, d)[1..] == TickSums(samples[0], samples[1..], d);
      assert Loads(prev, samples, d)[1..] == Loads(samples[0], samples[1..], d);
      assert first == first % 0x100 + 0x100 * (first / 0x100);
    }
  }

  lemma {:induction false} OneMore(n: nat, e: nat)
    ensures (n + 1) * e == n * e + e
  {
  }

  /** One more interval in front, with its own sum of ticks. */
  lemma {:induction false} SumsStep(bs: seq<Busy>, d: nat)
    requires d > 0 && |bs| > 1
    ensures var sums := TickSums(Register(bs[0]), Registers(bs[1..]), d);
      && sums != [] && sums[0] == TickSum(Register(bs[0]), Register(bs[1]), d)
      && sums[1..] == TickSums(Register(bs[1]), Registers(bs[2..]), d)
  {
    assert bs[1..][1..] == bs[2..];
    var rs := Registers(bs[1..]);
    assert rs[0] == Register(bs[1]) && rs[1..] == Registers(bs[2..]);
  }

  /** The ticks of n intervals understate the busy time by at most three partial ones in each. */
  predicate Understate(ticks: nat, busy: int, d: nat, n: nat) {
    0 <= busy - d * ticks <= n * (3 * (d - 1))
  }

  lemma {:induction false} BoundsAdd(d: nat, first: nat, rest: nat, a: int, b: int, n: nat)
    requires d > 0 && 0 <= a - d * first <= 3 * (d - 1) && Understate(rest, b, d, n)
    ensures Understate(first + rest, a + b, d, n + 1)
  {
    Distribute(d, first, rest, 0);
    OneMore(n, 3 * (d - 1));
  }

  lemma {:induction false} RunBound(bs: seq<Busy>, d: nat)
    requires d > 0 && bs != [] && AllGrow(bs)
    ensures Understate(Sum(TickSums(Register(bs[0]), Registers(bs[1..]), d)),
                       bs[|bs| - 1].Total() - bs[0].Total(), d, |bs| - 1)
  {
    if |bs| > 1 {
      var rest := bs[1..];
      AllGrowRest(bs);
      RunBound(rest, d);
      assert rest[1..] == bs[2..];
      TickSumBound(bs[0], bs[1], d);
      SumsStep(bs, d);
      var sums := TickSums(Register(bs[0]), Registers(bs[1..]), d);
      var first, others := bs[1].Total() - bs[0].Total(), bs[|bs| - 1].Total() - bs[1].Total();
      BoundsAdd(d, sums[0], Sum(sums[1..]), first, others, |bs| - 2);
      assert bs[|bs| - 1].Total() - bs[0].Total() == first + others;
    }
  }

  lemma {:induction false} AllGrowRest(bs: seq<Busy>)
    requires AllGrow(bs) && |bs| > 1
    ensures AllGrow(bs[1..]) && Grows(bs[0], bs[1])
  {
    var rest := bs[1..];
    forall i | 0 <= i < |rest| - 1
      ensures Grows(rest[i], rest[i + 1])
    {
      assert Grows(bs[i + 1], bs[i + 2]);
    }
  }

  lemma {:induction false} NoWraps(bs: seq<Busy>, d: nat)
    requires d > 0 && bs != [] && AllGrow(bs)
    ensures Wraps(TickSums(Register(bs[0]), Registers(bs[1..]), d)) == 0
       <==> forall i :: 0 <= i < |bs| - 1 ==> Interval(bs[i], bs[i + 1], d)
  {
    if |bs| > 1 {
      var rest := bs[1..];
      AllGrowRest(bs);
      NoWraps(rest, d);
      SumsStep(bs, d);
      assert rest[1..] == bs[2..];
      if forall i :: 0 <= i < |rest| - 1 ==> Interval(rest[i], rest[i + 1], d) {
        forall i | 1 <= i < |bs| - 1
          ensures Interval(bs[i], bs[i + 1], d)
        {
          assert Interval(rest[i - 1], rest[i], d);
        }
      }
    }
  }

  /** The loads, plus 256 ticks for each time a load wrapped, account for the whole busy time from the
      first to the last of the given moments, up to three partial ticks an interval; and no load wrapped
      exactly when the ticks of every interval fit in a byte. */
  ghost predicate AccountFor(loads: seq<nat>, bs: seq<Busy>, d: nat)
    requires d > 0 && bs != []
  {
    var n, wraps := |bs| - 1, Wraps(TickSums(Register(bs[0]), Registers(bs[1..]), d));
    && Understate(Sum(loads) + 0x100 * wraps, bs[n].Total() - bs[0].Total(), d, n)
    && (wraps == 0 <==> forall i :: 0 <= i < n ==> Interval(bs[i], bs[i + 1], d))
  }

  /** So they do over any number of updates after the first, although every counter may wrap (by less
      than a full turn in one interval). */
  lemma {:induction false} LoadAccounting(bs: seq<Busy>, d: nat)
    requires d > 0 && bs != [] && AllGrow(bs)
    ensures AccountFor(Loads(Register(bs[0]), Registers(bs[1..]), d), bs, d)
  {
    RunBound(bs, d);
    LoadsAreLowBytes(Register(bs[0]), Registers(bs[1..]), d);
    NoWraps(bs, d);
  }

  /** And so do the loads that RunTimer records for CPU i, whose counters show the busy times bs. */
  lemma {:induction false} TimerAccounting(start: seq<Busy>, samples: seq<seq<Busy>>, loads: seq<seq<nat>>,
                                           last: seq<Busy>, d: nat, i: nat, bs: seq<Busy>)
    requires d > 0 && Tracks(start, samples, loads, last, d) && i < |start|
    requires bs != [] && AllGrow(bs) && start[i] == Register(bs[0]) && Column(samples, i) == Registers(bs[1..])
    ensures AccountFor(Column(loads, i), bs, d)
  {
    assert Column(loads, i) == Loads(Register(bs[0]), Registers(bs[1..]), d);
    LoadAccounting(bs, d);
  }

  lemma {:induction false} Monotone(d: nat, x: nat, y: nat)
    requires x <= y
    ensures d * x <= d * y
  {
  }

  /** An eligible core was busy for at most 39 ticks and three partial ones in its last interval exactly
      if its ticks fitted in the byte they were stored in. */
  lemma {:induction false} SelectedCoreBound(b0: Busy, b1: Busy, c: Core, d: nat)
    requires d > 0 && Grows(b0, b1)
    requires c.load == Load(Register(b0), Register(b1), d) && Eligible(c)
    ensures b1.Total() - b0.Total() <= d * 39 + 3 * (d - 1) <==> TickSum(Register(b0), Register(b1), d) < 0x100
  {
    var sum := TickSum(Register(b0), Register(b1), d);
    TickSumBound(b0, b1, d);
    if sum < 0x100 {
      Monotone(d, sum, 39);
    } else {
      Monotone(d, 0x100, sum);
    }
  }

  /** Two successive updates and a selection: of the core returned, if any is eligible, the bound holds
      exactly if its ticks between the two updates fitted in a byte. */
  method SelectAfterUpdates(s: Sampler, b0: seq<Busy>, b1: seq<Busy>, current: nat) returns (irq: nat)
    requires s.Valid() && |b0| == |b1| == s.cores.Length
    requires forall i :: 0 <= i < |b0| ==> Grows(b0[i], b1[i])
    modifies s.cores, s.prev, s.now
    ensures (forall i :: 0 <= i < |b0| ==> !Eligible(s.cores[i])) ==> irq == current
    ensures (exists i :: 0 <= i < |b0| && Eligible(s.cores[i])) ==>
      && irq < |b0| && Eligible(s.cores[irq])
      && (b1[irq].Total() - b0[irq].Total() <= s.d * 39 + 3 * (s.d - 1)
          <==> TickSum(Register(b0[irq]), Register(b1[irq]), s.d) < 0x100)
  {
    s.Update(seq(|b0|, i requires 0 <= i < |b0| => Register(b0[i])));
    assert forall i :: 0 <= i < |b0| ==> s.prev[i] == s.prev[..][i] == Register(b0[i]);
    s.Update(seq(|b1|, i requires 0 <= i < |b1| => Register(b1[i])));
    irq := s.CoreSelection(current);
    if irq < |b0| && Eligible(s.cores[irq]) {
      SelectedCoreBound(b0[irq], b1[irq], s.cores[irq], s.d);
    }
  }

  /** From initialisation on, whatever is sampled, selection returns the current core: no code ever
      assigns a machine to a core. */
  method SelectFromStart(n: nat, d: nat, samples: seq<seq<Busy>>, current: nat) returns (irq: nat)
    requires d > 0 && forall k :: 0 <= k < |samples| ==> |samples[k]| == n
    ensures irq == current
  {
    var s := new Sampler(n, d);
    var loads := s.RunTimer(samples);
    assert forall i :: 0 <= i < n ==> s.cores[i].vmId == NOT_VM;
    irq := s.CoreSelection(current);
  }

  /** A CPU that is busy for 256 ticks shows no load at all. */
  lemma {:induction false} FullByteShowsNothing(d: nat)
    requires 0 < d < 0x1_0000_0000
    ensures Load(Register(Busy(0, 0, 0)), Register(Busy(0x100 * d, 0, 0)), d) == 0
  {
    WrapsAway(0x100 * d, 0);
    TickBound(0x100 * d, d);
    QuotientUnique(d, Ticks(0x100 * d, d), 0x100 * d - d * Ticks(0x100 * d, d), 0x100, 0);
    assert Ticks(0, d) == 0;
  }
}
