/**
  CPU-burst accounting: what every task is charged when it leaves a CPU, over any run of context
  switches on any number of CPUs, against the intervals that it really spent there.
 */
module CpuBurst {
  import opened Basics

  /** Clock values are signed differences away from each other: nanoseconds below 2^63. */
  const CLOCK_LIMIT := 0x8000_0000_0000_0000

  /**
    A run queue: its clock, the task it runs (`None` for idle) and the time charged to tasks.
    `start`, `idleSince` and `idleTime` only exist in the model: the clock at the first switch, the
    clock when idle last took over, and all earlier idle time.
   */
  datatype Rq = Rq(clock: nat, curr: Option<nat>, cpuTime: nat, start: Option<nat>, idleSince: nat, idleTime: nat)

  /** One stay of a task on a CPU. */
  datatype Stay = Stay(task: nat, cpu: nat, arrive: nat, depart: nat)

  /** `stays` lists the finished stays in the order in which they were charged. */
  datatype Machine = Machine(rqs: map<nat, Rq>, lastArrival: map<nat, nat>, burst: map<nat, nat>, stays: seq<Stay>)

  // ----- the accounting functions -----

  /** The run queue's clock follows `now`, but never goes back; an update may be skipped. */
  function ClockAfter(clock: nat, now: nat, skip: bool): (c: nat) {
    var delta := ToSigned((now - clock) % U64);
    if skip || delta < 0 then clock else clock + delta
  }

  lemma ClockIsMonotone(clock: nat, now: nat, skip: bool)
    requires clock < CLOCK_LIMIT && now < CLOCK_LIMIT
    ensures ClockAfter(clock, now, skip) == if skip || now < clock then clock else now
  {
    if now >= clock {
      assert (now - clock) % U64 == now - clock;
    } else {
      assert (now - clock) % U64 == now - clock + U64;
    }
  }

  function Tick(m: Machine, cpu: nat, now: nat, skip: bool): Machine
    requires cpu in m.rqs
  {
    m.(rqs := m.rqs[cpu := m.rqs[cpu].(clock := ClockAfter(m.rqs[cpu].clock, now, skip))])
  }

  /** A task leaves the CPU and is charged; idle is only noted by the model. */
  function Depart(m: Machine, cpu: nat): Machine
    requires cpu in m.rqs
  {
    var rq := m.rqs[cpu];
    match rq.curr
    case Some(t) =>
      if t in m.lastArrival && t in m.burst then
        var delta := (rq.clock - m.lastArrival[t]) % U64;
        m.(rqs := m.rqs[cpu := rq.(cpuTime := (rq.cpuTime + delta) % U64)],
           burst := m.burst[t := (m.burst[t] + delta) % U64],
           stays := m.stays + [Stay(t, cpu, m.lastArrival[t], rq.clock)])
      else m
    case None =>
      if rq.start.None? then m.(rqs := m.rqs[cpu := rq.(start := Some(rq.clock), idleSince := rq.clock)])
      else m.(rqs := m.rqs[cpu := rq.(idleTime := rq.idleTime + (if rq.clock >= rq.idleSince then rq.clock - rq.idleSince else 0))])
  }

  function Arrive(m: Machine, cpu: nat, next: Option<nat>): Machine
    requires cpu in m.rqs
  {
    var rq := m.rqs[cpu];
    match next
    case Some(t) => m.(rqs := m.rqs[cpu := rq.(curr := next)], lastArrival := m.lastArrival[t := rq.clock])
    case None => m.(rqs := m.rqs[cpu := rq.(curr := None, idleSince := rq.clock)])
  }

  datatype Op =
    | Fork(task: nat)
    | Clock(cpu: nat, now: nat)
    | Schedule(cpu: nat, now: nat, skip: bool, next: Option<nat>)

  function Next(m: Machine, op: Op): Machine
    requires op.Clock? ==> op.cpu in m.rqs
    requires op.Schedule? ==> op.cpu in m.rqs
  {
    match op
    case Fork(t) => m.(lastArrival := m.lastArrival[t := 0], burst := m.burst[t := 0])
    case Clock(cpu, now) => Tick(m, cpu, now, false)
    case Schedule(cpu, now, skip, next) =>
      var m1 := Tick(m, cpu, now, skip);
      if next == m1.rqs[cpu].curr then m1 else Arrive(Depart(m1, cpu), cpu, next)
  }

  /** A task is created once, and runs on one CPU at a time. */
  ghost predicate Enabled(m: Machine, op: Op) {
    match op
    case Fork(t) => t !in m.burst
    case Clock(cpu, now) => cpu in m.rqs && now < CLOCK_LIMIT
    case Schedule(cpu, now, _, next) =>
      && cpu in m.rqs && now < CLOCK_LIMIT
      && (next.Some? ==> next.value in m.burst && forall c | c in m.rqs && c != cpu :: m.rqs[c].curr != next)
  }

  // ----- the books -----

  ghost function OfTask(stays: seq<Stay>, t: nat): int {
    if stays == [] then 0
    else
      var s := stays[|stays| - 1];
      OfTask(stays[..|stays| - 1], t) + if s.task == t then s.depart - s.arrive else 0
  }

  ghost function OfCpu(stays: seq<Stay>, c: nat): int {
    if stays == [] then 0
    else
      var s := stays[|stays| - 1];
      OfCpu(stays[..|stays| - 1], c) + if s.cpu == c then s.depart - s.arrive else 0
  }

  lemma SumsAppend(stays: seq<Stay>, s: Stay, t: nat, c: nat)
    ensures OfTask(stays + [s], t) == OfTask(stays, t) + if s.task == t then s.depart - s.arrive else 0
    ensures OfCpu(stays + [s], c) == OfCpu(stays, c) + if s.cpu == c then s.depart - s.arrive else 0
  {
    assert (stays + [s])[..|stays|] == stays;
  }

  /** Time since the current task, or idle, took over. */
  ghost function Uncharged(m: Machine, c: nat): int
    requires c in m.rqs
  {
    var rq := m.rqs[c];
    match rq.curr
    case Some(t) => if t in m.lastArrival then rq.clock - m.lastArrival[t] else 0
    case None => rq.clock - rq.idleSince
  }

  /** The clock since the first switch is what tasks were charged, what idle ran, and `pending`. */
  ghost predicate Account(m: Machine, c: nat, pending: int)
    requires c in m.rqs
  {
    var rq := m.rqs[c];
    && rq.clock < CLOCK_LIMIT
    && rq.cpuTime == OfCpu(m.stays, c)
    && rq.start.Some? && pending >= 0
    && rq.clock - rq.start.value == rq.cpuTime + rq.idleTime + pending
    && forall i | 0 <= i < |m.stays| && m.stays[i].cpu == c :: m.stays[i].depart <= rq.clock - pending
  }

  ghost predicate RqOk(m: Machine, c: nat)
    requires c in m.rqs
  {
    var rq := m.rqs[c];
    if rq.start.Some? then
      && Account(m, c, Uncharged(m, c))
      && (rq.curr.Some? ==> rq.curr.value in m.burst)
    else
      && rq.curr.None? && rq.clock < CLOCK_LIMIT && rq.cpuTime == 0 && rq.idleTime == 0
      && OfCpu(m.stays, c) == 0
      && forall i | 0 <= i < |m.stays| :: m.stays[i].cpu != c
  }

  /** Every stay has a non-negative length, and stays on one CPU do not overlap. */
  ghost predicate StaysOk(stays: seq<Stay>) {
    && (forall i | 0 <= i < |stays| :: stays[i].arrive <= stays[i].depart)
    && (forall i, j | 0 <= i < j < |stays| && stays[i].cpu == stays[j].cpu :: stays[i].depart <= stays[j].arrive)
  }

  ghost predicate TasksOk(m: Machine) {
    && m.lastArrival.Keys == m.burst.Keys
    && StaysOk(m.stays)
    && (forall i | 0 <= i < |m.stays| :: m.stays[i].task in m.burst && m.stays[i].cpu in m.rqs)
    && (forall t | t in m.burst :: m.burst[t] == OfTask(m.stays, t) % U64)
  }

  ghost predicate Exclusive(m: Machine, c: nat, d: nat)
    requires c in m.rqs && d in m.rqs
  {
    c != d && m.rqs[c].curr.Some? ==> m.rqs[c].curr != m.rqs[d].curr
  }

  ghost predicate Inv(m: Machine) {
    && TasksOk(m)
    && (forall c | c in m.rqs :: RqOk(m, c))
    && (forall c, d | c in m.rqs && d in m.rqs :: Exclusive(m, c, d))
  }

  /** `cpu` is between two tasks: everything up to its clock is charged. */
  ghost predicate Between(m: Machine, cpu: nat) {
    && cpu in m.rqs && TasksOk(m)
    && (forall c | c in m.rqs && c != cpu :: RqOk(m, c))
    && (forall c, d | c in m.rqs && d in m.rqs && c != cpu && d != cpu :: Exclusive(m, c, d))
    && Account(m, cpu, 0)
  }

  lemma TickKeepsInv(m: Machine, cpu: nat, now: nat, skip: bool)
    requires Inv(m) && cpu in m.rqs && now < CLOCK_LIMIT
    ensures Inv(Tick(m, cpu, now, skip))
    ensures Tick(m, cpu, now, skip).rqs[cpu].clock >= m.rqs[cpu].clock
  {
    var m' := Tick(m, cpu, now, skip);
    assert RqOk(m, cpu);
    ClockIsMonotone(m.rqs[cpu].clock, now, skip);
    forall c | c in m'.rqs ensures RqOk(m', c) {
      assert RqOk(m, c);
    }
    forall c, d | c in m'.rqs && d in m'.rqs ensures Exclusive(m', c, d) {
      assert Exclusive(m, c, d);
    }
  }

  ghost function StayOf(m: Machine, cpu: nat, t: nat): Stay
    requires cpu in m.rqs && t in m.lastArrival
  {
    Stay(t, cpu, m.lastArrival[t], m.rqs[cpu].clock)
  }

  /** Charging a stay that ends now: no wrap-around, and the books stay in order. */
  lemma ChargeAmount(m: Machine, cpu: nat, t: nat)
    requires m.lastArrival.Keys == m.burst.Keys
    requires cpu in m.rqs && m.rqs[cpu].curr == Some(t) && RqOk(m, cpu) && t in m.burst
    ensures var rq, m' := m.rqs[cpu], Depart(m, cpu); var delta := rq.clock - m.lastArrival[t];
      && 0 <= delta && rq.cpuTime + delta < U64
      && m' == m.(rqs := m.rqs[cpu := rq.(cpuTime := rq.cpuTime + delta)],
                  burst := m.burst[t := (m.burst[t] + delta) % U64], stays := m.stays + [StayOf(m, cpu, t)])
  {
    var rq := m.rqs[cpu];
    var delta := rq.clock - m.lastArrival[t];
    assert Account(m, cpu, delta);
    assert delta % U64 == delta;
    assert (rq.cpuTime + delta) % U64 == rq.cpuTime + delta;
  }

  lemma ChargeTasks(m: Machine, cpu: nat, t: nat)
    requires TasksOk(m) && cpu in m.rqs && m.rqs[cpu].curr == Some(t) && RqOk(m, cpu) && t in m.burst
    ensures TasksOk(Depart(m, cpu))
  {
    ChargeAmount(m, cpu, t);
    var stay, m' := StayOf(m, cpu, t), Depart(m, cpu);
    assert Account(m, cpu, stay.depart - stay.arrive);
    StaysAppend(m.stays, stay);
    forall x | x in m'.burst ensures m'.burst[x] == OfTask(m'.stays, x) % U64 {
      ChargeBurst(m, stay, x);
    }
  }

  lemma ChargeBurst(m: Machine, stay: Stay, x: nat)
    requires x in m.burst && stay.task in m.burst && m.burst[x] == OfTask(m.stays, x) % U64
    requires m.burst[stay.task] + (stay.depart - stay.arrive) >= 0
    ensures m.burst[stay.task := (m.burst[stay.task] + (stay.depart - stay.arrive)) % U64][x] == OfTask(m.stays + [stay], x) % U64
  {
    SumsAppend(m.stays, stay, x, stay.cpu);
    ModAdd(OfTask(m.stays, x), stay.depart - stay.arrive);
  }

  lemma ChargeAccount(m: Machine, cpu: nat, t: nat)
    requires m.lastArrival.Keys == m.burst.Keys
    requires cpu in m.rqs && m.rqs[cpu].curr == Some(t) && RqOk(m, cpu) && t in m.burst
    ensures Account(Depart(m, cpu), cpu, 0)
  {
    ChargeAmount(m, cpu, t);
    SumsAppend(m.stays, StayOf(m, cpu, t), t, cpu);
    assert Account(m, cpu, m.rqs[cpu].clock - m.lastArrival[t]);
    hide Depart;
  }

  lemma ModAdd(x: int, d: int)
    ensures (x % U64 + d) % U64 == (x + d) % U64
  {
    var q := x / U64;
    assert x == q * U64 + x % U64;
    assert (x % U64 + d) + q * U64 == x + d;
    ModShift(x % U64 + d, q);
  }

  lemma ModShift(y: int, q: int)
    ensures (y + q * U64) % U64 == y % U64
  {
    var r := y / U64;
    assert y + q * U64 == (r + q) * U64 + y % U64;
  }

  lemma StaysAppend(stays: seq<Stay>, s: Stay)
    requires StaysOk(stays) && s.arrive <= s.depart
    requires forall i | 0 <= i < |stays| && stays[i].cpu == s.cpu :: stays[i].depart <= s.arrive
    ensures StaysOk(stays + [s])
  {
  }

  /** A stay on another CPU does not touch the books of CPU `c`. */
  lemma StayElsewhere(stays: seq<Stay>, s: Stay, c: nat)
    requires s.cpu != c
    ensures OfCpu(stays + [s], c) == OfCpu(stays, c)
    ensures forall i | 0 <= i < |stays + [s]| && (stays + [s])[i].cpu == c :: i < |stays|
  {
    SumsAppend(stays, s, s.task, c);
  }

  lemma OthersKeep(m: Machine, m': Machine, cpu: nat, c: nat, s: Stay)
    requires c in m.rqs && RqOk(m, c) && c != cpu && c in m'.rqs && m'.rqs[c] == m.rqs[c]
    requires m'.burst.Keys == m.burst.Keys && m'.lastArrival == m.lastArrival
    requires m'.stays == m.stays || (s.cpu == cpu && m'.stays == m.stays + [s])
    ensures RqOk(m', c)
  {
    if m'.stays != m.stays {
      StayElsewhere(m.stays, s, c);
    }
    hide OfCpu;
  }

  lemma DepartSettles(m: Machine, cpu: nat)
    requires Inv(m) && cpu in m.rqs
    ensures Between(Depart(m, cpu), cpu)
    ensures Depart(m, cpu).rqs[cpu].clock == m.rqs[cpu].clock
    ensures Depart(m, cpu).burst.Keys == m.burst.Keys
    ensures forall c | c in m.rqs && c != cpu :: c in Depart(m, cpu).rqs && Depart(m, cpu).rqs[c] == m.rqs[c]
    ensures Depart(m, cpu).rqs.Keys == m.rqs.Keys
  {
    var rq, m' := m.rqs[cpu], Depart(m, cpu);
    assert RqOk(m, cpu);
    var stay := Stay(0, cpu, 0, 0);
    if rq.curr.Some? {
      var t := rq.curr.value;
      stay := StayOf(m, cpu, t);
      ChargeTasks(m, cpu, t);
      ChargeAccount(m, cpu, t);
      ChargeAmount(m, cpu, t);
    } else {
      IdleAccount(m, cpu);
    }
    forall c | c in m'.rqs && c != cpu ensures RqOk(m', c) {
      assert RqOk(m, c);
      OthersKeep(m, m', cpu, c, stay);
    }
    forall c, d | c in m'.rqs && d in m'.rqs && c != cpu && d != cpu ensures Exclusive(m', c, d) {
      assert Exclusive(m, c, d);
    }
  }

  lemma IdleAccount(m: Machine, cpu: nat)
    requires TasksOk(m) && cpu in m.rqs && m.rqs[cpu].curr.None? && RqOk(m, cpu)
    ensures Account(Depart(m, cpu), cpu, 0) && TasksOk(Depart(m, cpu)) && Depart(m, cpu).stays == m.stays
  {
    assert m.rqs[cpu].start.Some? ==> Account(m, cpu, Uncharged(m, cpu));
  }

  lemma ArriveKeepsInv(m: Machine, cpu: nat, next: Option<nat>)
    requires Between(m, cpu)
    requires next.Some? ==> next.value in m.burst && forall c | c in m.rqs && c != cpu :: m.rqs[c].curr != next
    ensures Inv(Arrive(m, cpu, next))
  {
    var m' := Arrive(m, cpu, next);
    forall c | c in m'.rqs ensures RqOk(m', c) {
      assert c != cpu ==> RqOk(m, c);
      assert c != cpu ==> Uncharged(m', c) == Uncharged(m, c);
    }
    forall c, d | c in m'.rqs && d in m'.rqs ensures Exclusive(m', c, d) {
      assert c != cpu && d != cpu ==> Exclusive(m, c, d);
    }
  }

  lemma ForkKeepsInv(m: Machine, t: nat)
    requires Inv(m) && t !in m.burst
    ensures Inv(Next(m, Fork(t)))
  {
    var m' := Next(m, Fork(t));
    NewTaskHasNoStays(m.stays, t);
    forall c | c in m'.rqs ensures RqOk(m', c) {
      assert RqOk(m, c);
      assert m.rqs[c].start.Some? ==> Uncharged(m', c) == Uncharged(m, c);
    }
    forall c, d | c in m'.rqs && d in m'.rqs ensures Exclusive(m', c, d) {
      assert Exclusive(m, c, d);
    }
  }

  lemma {:induction false} NewTaskHasNoStays(stays: seq<Stay>, t: nat)
    requires forall i | 0 <= i < |stays| :: stays[i].task != t
    ensures OfTask(stays, t) == 0
    decreases |stays|
  {
    if stays != [] {
      NewTaskHasNoStays(stays[..|stays| - 1], t);
    }
  }

  lemma ScheduleKeepsInv(m: Machine, cpu: nat, now: nat, skip: bool, next: Option<nat>)
    requires Inv(m) && Enabled(m, Schedule(cpu, now, skip, next))
    ensures Inv(Next(m, Schedule(cpu, now, skip, next)))
  {
    var m1 := Tick(m, cpu, now, skip);
    TickKeepsInv(m, cpu, now, skip);
    if next != m1.rqs[cpu].curr {
      DepartSettles(m1, cpu);
      var m2 := Depart(m1, cpu);
      assert m2.burst.Keys == m.burst.Keys;
      forall c | c in m2.rqs && c != cpu ensures next.Some? ==> m2.rqs[c].curr != next {
        assert m2.rqs[c] == m.rqs[c];
      }
      hide Depart, Between, Inv;
      ArriveKeepsInv(m2, cpu, next);
    }
  }

  lemma NextKeepsInv(m: Machine, op: Op)
    requires Inv(m) && Enabled(m, op)
    ensures Inv(Next(m, op))
  {
    match op
    case Fork(t) => ForkKeepsInv(m, t);
    case Clock(cpu, now) => TickKeepsInv(m, cpu, now, false);
    case Schedule(cpu, now, skip, next) => ScheduleKeepsInv(m, cpu, now, skip, next);
  }

  // ----- the books against the time on the CPU -----

  ghost predicate On(m: Machine, c: nat, t: nat) {
    c in m.rqs && m.rqs[c].curr == Some(t)
  }

  ghost predicate Running(m: Machine, t: nat) {
    exists c :: On(m, c, t)
  }

  /** What a task that is on a CPU has not been charged yet. */
  ghost function Pending(m: Machine, t: nat): int {
    if Running(m, t) then var c :| On(m, c, t); Uncharged(m, c) else 0
  }

  lemma PendingOn(m: Machine, c: nat, t: nat)
    requires Inv(m) && On(m, c, t)
    ensures Pending(m, t) == Uncharged(m, c) && t in m.lastArrival && t in m.burst
  {
    assert RqOk(m, c);
    forall d | On(m, d, t) ensures d == c {
      assert Exclusive(m, c, d);
    }
  }

  /** How long the step from `m` to `m'` lets `t` run: the advance of the clock of the CPU that it is on. */
  ghost function Ran(m: Machine, m': Machine, op: Op, t: nat): int {
    if !op.Fork? && On(m, op.cpu, t) && op.cpu in m'.rqs then m'.rqs[op.cpu].clock - m.rqs[op.cpu].clock else 0
  }

  lemma TickRuns(m: Machine, cpu: nat, now: nat, skip: bool, t: nat)
    requires Inv(m) && cpu in m.rqs && now < CLOCK_LIMIT
    ensures var m' := Tick(m, cpu, now, skip);
      Pending(m', t) == Pending(m, t) + if On(m, cpu, t) then m'.rqs[cpu].clock - m.rqs[cpu].clock else 0
  {
    var m' := Tick(m, cpu, now, skip);
    TickKeepsInv(m, cpu, now, skip);
    assert forall c :: On(m, c, t) <==> On(m', c, t);
    if c :| On(m, c, t) {
      PendingOn(m, c, t);
      PendingOn(m', c, t);
      if On(m, cpu, t) {
        PendingOn(m, cpu, t);
        PendingOn(m', cpu, t);
      }
    }
  }

  ghost predicate MaySwitch(m: Machine, cpu: nat, next: Option<nat>) {
    && cpu in m.rqs && next != m.rqs[cpu].curr
    && (next.Some? ==> next.value in m.burst && forall c | c in m.rqs && c != cpu :: m.rqs[c].curr != next)
  }

  /** What a switch leaves as it is. */
  lemma SwitchFacts(m: Machine, cpu: nat, next: Option<nat>)
    requires Inv(m) && MaySwitch(m, cpu, next)
    ensures cpu in Depart(m, cpu).rqs
    ensures var m' := Arrive(Depart(m, cpu), cpu, next);
      && Inv(m') && m'.rqs.Keys == m.rqs.Keys && m'.rqs[cpu].curr == next && m'.rqs[cpu].clock == m.rqs[cpu].clock
      && (forall c | c in m.rqs && c != cpu :: m'.rqs[c] == m.rqs[c])
      && (forall t | t in m.lastArrival && next != Some(t) :: t in m'.lastArrival && m'.lastArrival[t] == m.lastArrival[t])
      && (next.Some? ==> next.value in m'.lastArrival && m'.lastArrival[next.value] == m.rqs[cpu].clock)
    ensures Arrive(Depart(m, cpu), cpu, next).stays
         == if m.rqs[cpu].curr.Some? && m.rqs[cpu].curr.value in m.lastArrival
            then m.stays + [StayOf(m, cpu, m.rqs[cpu].curr.value)] else m.stays
  {
    DepartSettles(m, cpu);
    assert m.lastArrival.Keys == m.burst.Keys;
    DepartFacts(m, cpu);
    hide Inv, Between, Depart;
    ArriveKeepsInv(Depart(m, cpu), cpu, next);
  }

  lemma DepartFacts(m: Machine, cpu: nat)
    requires cpu in m.rqs && m.lastArrival.Keys == m.burst.Keys
    ensures Depart(m, cpu).lastArrival == m.lastArrival
    ensures Depart(m, cpu).stays
         == if m.rqs[cpu].curr.Some? && m.rqs[cpu].curr.value in m.lastArrival
            then m.stays + [StayOf(m, cpu, m.rqs[cpu].curr.value)] else m.stays
  {
  }

  /** A switch moves what was pending into a stay, and nothing else. */
  lemma SwitchCharges(m: Machine, cpu: nat, next: Option<nat>, t: nat)
    requires Inv(m) && MaySwitch(m, cpu, next)
    requires cpu in Depart(m, cpu).rqs
    ensures var m' := Arrive(Depart(m, cpu), cpu, next);
      OfTask(m'.stays, t) + Pending(m', t) == OfTask(m.stays, t) + Pending(m, t)
  {
    var m' := Arrive(Depart(m, cpu), cpu, next);
    SwitchFacts(m, cpu, next);
    hide Depart, Arrive, Inv;
    if On(m, cpu, t) {
      PendingOn(m, cpu, t);
      SumsAppend(m.stays, StayOf(m, cpu, t), t, cpu);
      LeavesAll(m, m', cpu, t);
    } else {
      if m'.stays != m.stays {
        SumsAppend(m.stays, StayOf(m, cpu, m.rqs[cpu].curr.value), t, cpu);
      }
      hide OfTask;
      SwitchKeepsPending(m, m', cpu, next, t);
    }
  }

  /** Nothing is pending for a task that was not on the CPU that switches, unless it is on another. */
  lemma SwitchKeepsPending(m: Machine, m': Machine, cpu: nat, next: Option<nat>, t: nat)
    requires Inv(m) && Inv(m') && MaySwitch(m, cpu, next) && !On(m, cpu, t)
    requires m'.rqs.Keys == m.rqs.Keys && m'.rqs[cpu].curr == next && m'.rqs[cpu].clock == m.rqs[cpu].clock
    requires forall c | c in m.rqs && c != cpu :: m'.rqs[c] == m.rqs[c]
    requires forall x | x in m.lastArrival && next != Some(x) :: x in m'.lastArrival && m'.lastArrival[x] == m.lastArrival[x]
    requires next.Some? ==> next.value in m'.lastArrival && m'.lastArrival[next.value] == m.rqs[cpu].clock
    ensures Pending(m', t) == Pending(m, t)
  {
    hide Inv;
    if next == Some(t) {
      assert On(m', cpu, t);
      PendingOn(m', cpu, t);
      assert !Running(m, t);
    } else if c :| On(m, c, t) {
      PendingOn(m, c, t);
      PendingOn(m', c, t);
    } else {
      assert forall c :: On(m', c, t) ==> On(m, c, t);
    }
  }

  lemma LeavesAll(m: Machine, m': Machine, cpu: nat, t: nat)
    requires Inv(m) && On(m, cpu, t) && m'.rqs.Keys == m.rqs.Keys && m'.rqs[cpu].curr != Some(t)
    requires forall c | c in m.rqs && c != cpu :: m'.rqs[c] == m.rqs[c]
    ensures !Running(m', t)
  {
    forall c | c in m.rqs ensures !On(m', c, t) {
      assert Exclusive(m, cpu, c);
    }
  }

  lemma ForkRuns(m: Machine, n: nat, t: nat)
    requires Inv(m) && n !in m.burst
    ensures Pending(Next(m, Fork(n)), t) == Pending(m, t)
  {
    var m' := Next(m, Fork(n));
    ForkKeepsInv(m, n);
    assert forall c :: On(m, c, t) <==> On(m', c, t);
    if c :| On(m, c, t) {
      PendingOn(m, c, t);
      PendingOn(m', c, t);
    }
  }

  lemma NextRuns(m: Machine, op: Op, t: nat)
    requires Inv(m) && Enabled(m, op)
    ensures var m' := Next(m, op);
      OfTask(m'.stays, t) + Pending(m', t) == OfTask(m.stays, t) + Pending(m, t) + Ran(m, m', op, t)
  {
    hide Inv, Pending, OfTask, Depart;
    match op
    case Fork(n) => ForkRuns(m, n, t);
    case Clock(cpu, now) => TickRuns(m, cpu, now, false, t);
    case Schedule(cpu, now, skip, next) =>
      var m1 := Tick(m, cpu, now, skip);
      TickRuns(m, cpu, now, skip, t);
      TickKeepsInv(m, cpu, now, skip);
      if next != m1.rqs[cpu].curr {
        SwitchFacts(m1, cpu, next);
        SwitchCharges(m1, cpu, next, t);
      }
  }

  // ----- every run -----

  /** No tasks yet; every CPU idles and has not switched. */
  ghost predicate Initial(m: Machine) {
    && m.lastArrival == map[] && m.burst == map[] && m.stays == []
    && forall c | c in m.rqs ::
         && m.rqs[c].clock < CLOCK_LIMIT && m.rqs[c].curr.None? && m.rqs[c].start.None?
         && m.rqs[c].cpuTime == 0 && m.rqs[c].idleTime == 0
  }

  ghost predicate IsRun(ops: seq<Op>, ms: seq<Machine>) {
    && |ms| == |ops| + 1
    && Initial(ms[0])
    && forall i | 0 <= i < |ops| :: Enabled(ms[i], ops[i]) && ms[i + 1] == Next(ms[i], ops[i])
  }

  lemma InitialInv(m: Machine)
    requires Initial(m)
    ensures Inv(m)
  {
  }

  lemma {:induction false} RunKeepsInv(ops: seq<Op>, ms: seq<Machine>, i: nat)
    requires IsRun(ops, ms) && i <= |ops|
    ensures Inv(ms[i])
  {
    hide TasksOk, RqOk, Exclusive, Next;
    if i == 0 {
      InitialInv(ms[0]);
    } else {
      RunKeepsInv(ops, ms, i - 1);
      NextKeepsInv(ms[i - 1], ops[i - 1]);
    }
  }

  /** How long `t` has been on a CPU, by the clocks of the CPUs alone. */
  ghost function OnCpu(ops: seq<Op>, ms: seq<Machine>, i: nat, t: nat): int
    requires i <= |ops| < |ms|
    decreases i
  {
    if i == 0 then 0 else OnCpu(ops, ms, i - 1, t) + Ran(ms[i - 1], ms[i], ops[i - 1], t)
  }

  /** What was charged and what is still pending is exactly the time on a CPU. */
  lemma {:induction false} StaysAreTimeOnCpu(ops: seq<Op>, ms: seq<Machine>, i: nat, t: nat)
    requires IsRun(ops, ms) && i <= |ops|
    ensures OfTask(ms[i].stays, t) + Pending(ms[i], t) == OnCpu(ops, ms, i, t)
    decreases i
  {
    if i == 0 {
      assert forall c :: !On(ms[0], c, t);
    } else {
      StaysAreTimeOnCpu(ops, ms, i - 1, t);
      RunKeepsInv(ops, ms, i - 1);
      hide Inv, Pending, OfTask, Next;
      NextRuns(ms[i - 1], ops[i - 1], t);
    }
  }

  /** The counter of a task, with what is pending, is its time on a CPU; off the CPU nothing is pending. */
  lemma BurstIsTimeOnCpu(ops: seq<Op>, ms: seq<Machine>, i: nat, t: nat)
    requires IsRun(ops, ms) && i <= |ops| && t in ms[i].burst
    ensures (ms[i].burst[t] + Pending(ms[i], t)) % U64 == OnCpu(ops, ms, i, t) % U64
    ensures !Running(ms[i], t) ==> ms[i].burst[t] == OnCpu(ops, ms, i, t) % U64
  {
    hide Inv, OfTask, OnCpu, Uncharged, On, Enabled, Next, Initial;
    BurstIsTheSumOfStays(ops, ms, i, t);
    StaysAreTimeOnCpu(ops, ms, i, t);
    ModOfSum(ms[i].burst[t], OfTask(ms[i].stays, t), Pending(ms[i], t), OnCpu(ops, ms, i, t));
  }

  lemma ModOfSum(b: nat, charged: int, pending: int, total: int)
    requires b == charged % U64 && charged + pending == total
    ensures (b + pending) % U64 == total % U64 && (pending == 0 ==> b == total % U64)
  {
    ModAdd(charged, pending);
  }

  /** The counter printed when a task dies is the sum of its stays, all of non-negative length and disjoint on each CPU. */
  lemma BurstIsTheSumOfStays(ops: seq<Op>, ms: seq<Machine>, i: nat, t: nat)
    requires IsRun(ops, ms) && i <= |ops| && t in ms[i].burst
    ensures ms[i].burst[t] == OfTask(ms[i].stays, t) % U64
    ensures StaysOk(ms[i].stays)
  {
    RunKeepsInv(ops, ms, i);
  }

  /** On each CPU: clock since the first switch = charges to its tasks + idle time + what is still uncharged. */
  lemma ClockIsAccountedFor(ops: seq<Op>, ms: seq<Machine>, i: nat, c: nat)
    requires IsRun(ops, ms) && i <= |ops| && c in ms[i].rqs && ms[i].rqs[c].start.Some?
    ensures var m := ms[i]; var rq := m.rqs[c];
      && rq.cpuTime == OfCpu(m.stays, c)
      && Uncharged(m, c) >= 0
      && rq.clock - rq.start.value == rq.cpuTime + rq.idleTime + Uncharged(m, c)
  {
    RunKeepsInv(ops, ms, i);
    assert RqOk(ms[i], c);
  }

  /** An operation that reads the clock for run queue `c`. */
  predicate Reads(op: Op, c: nat) {
    || (op.Clock? && op.cpu == c)
    || (op.Schedule? && op.cpu == c && !op.skip)
  }

  function Later(x: nat, y: nat): nat {
    if x < y then y else x
  }

  lemma NextClock(m: Machine, op: Op, c: nat)
    requires Inv(m) && Enabled(m, op) && c in m.rqs
    ensures c in Next(m, op).rqs
    ensures Next(m, op).rqs[c].clock == if Reads(op, c) then Later(m.rqs[c].clock, op.now) else m.rqs[c].clock
  {
    assert RqOk(m, c);
    hide TasksOk, Exclusive, OfCpu, ToSigned;
    match op
    case Fork(_) =>
    case Clock(cpu, now) =>
      ClockIsMonotone(m.rqs[c].clock, now, false);
    case Schedule(cpu, now, skip, _) =>
      ClockIsMonotone(m.rqs[c].clock, now, skip);
  }

  /** The clock of a run queue never goes back. */
  lemma ClockNeverGoesBack(ops: seq<Op>, ms: seq<Machine>, i: nat, c: nat)
    requires IsRun(ops, ms) && i < |ops| && c in ms[i].rqs
    ensures c in ms[i + 1].rqs && ms[i + 1].rqs[c].clock >= ms[i].rqs[c].clock
  {
    RunKeepsInv(ops, ms, i);
    NextClock(ms[i], ops[i], c);
  }

  /** The clock of a run queue is the latest reading that it was given, or its first value if that is later. */
  lemma {:induction false} ClockIsLatestReading(ops: seq<Op>, ms: seq<Machine>, i: nat, c: nat)
    requires IsRun(ops, ms) && i <= |ops| && c in ms[0].rqs
    ensures c in ms[i].rqs && ms[i].rqs[c].clock >= ms[0].rqs[c].clock
    ensures forall j | 0 <= j < i && Reads(ops[j], c) :: ops[j].now <= ms[i].rqs[c].clock
    ensures ms[i].rqs[c].clock == ms[0].rqs[c].clock || exists j :: 0 <= j < i && Reads(ops[j], c) && ops[j].now == ms[i].rqs[c].clock
    decreases i
  {
    hide Inv, Next, Initial, Enabled;
    if i > 0 {
      ClockIsLatestReading(ops, ms, i - 1, c);
      RunKeepsInv(ops, ms, i - 1);
      NextClock(ms[i - 1], ops[i - 1], c);
    }
  }

  /** Operation `j` reads a value that no earlier reading for that run queue exceeds, nor its first value. */
  ghost predicate UpToDate(ops: seq<Op>, ms: seq<Machine>, j: nat, c: nat)
    requires j < |ops| < |ms|
  {
    && Reads(ops[j], c) && c in ms[0].rqs && ms[0].rqs[c].clock <= ops[j].now
    && forall m | 0 <= m < j && Reads(ops[m], c) :: ops[m].now <= ops[j].now
  }

  lemma ClockIsReading(ops: seq<Op>, ms: seq<Machine>, j: nat, c: nat)
    requires IsRun(ops, ms) && j < |ops| && UpToDate(ops, ms, j, c)
    ensures c in ms[j + 1].rqs && ms[j + 1].rqs[c].clock == ops[j].now
  {
    hide Next, Initial, Enabled;
    ClockIsLatestReading(ops, ms, j, c);
    ClockIsLatestReading(ops, ms, j + 1, c);
    RunKeepsInv(ops, ms, j);
    hide Inv;
    NextClock(ms[j], ops[j], c);
  }

  /** While a task stays on a CPU, its time there grows with the clock of that CPU. */
  lemma {:induction false} TimeFollowsClock(ops: seq<Op>, ms: seq<Machine>, j: nat, k: nat, c: nat, t: nat)
    requires IsRun(ops, ms) && j <= k <= |ops| && forall m | j <= m < k :: On(ms[m], c, t)
    requires c in ms[j].rqs
    ensures c in ms[k].rqs
    ensures OnCpu(ops, ms, k, t) - OnCpu(ops, ms, j, t) == ms[k].rqs[c].clock - ms[j].rqs[c].clock
    decreases k
  {
    hide Inv, Next, Initial, Enabled;
    if j < k {
      TimeFollowsClock(ops, ms, j, k - 1, c, t);
      RunKeepsInv(ops, ms, k - 1);
      NextClock(ms[k - 1], ops[k - 1], c);
      if !ops[k - 1].Fork? && On(ms[k - 1], ops[k - 1].cpu, t) {
        OnOne(ms[k - 1], c, ops[k - 1].cpu, t);
      }
    }
  }

  lemma OnOne(m: Machine, c: nat, d: nat, t: nat)
    requires Inv(m) && On(m, c, t) && On(m, d, t)
    ensures c == d
  {
    assert Exclusive(m, c, d);
  }

  lemma NextCurrent(m: Machine, cpu: nat, now: nat, skip: bool, next: Option<nat>)
    requires Inv(m) && Enabled(m, Schedule(cpu, now, skip, next))
    ensures var m' := Next(m, Schedule(cpu, now, skip, next));
      && m'.rqs.Keys == m.rqs.Keys && m'.rqs[cpu].curr == next
      && forall c | c in m.rqs && c != cpu :: m'.rqs[c] == m.rqs[c]
  {
    hide Inv, ClockAfter;
  }

  /** `t` is put on CPU `c` by the switch `j` and taken off by the switch `k`, both with up-to-date readings. */
  ghost predicate OneStay(ops: seq<Op>, ms: seq<Machine>, j: nat, k: nat, c: nat, t: nat)
    requires j < k < |ops| < |ms|
  {
    && ops[j].Schedule? && ops[k].Schedule?
    && UpToDate(ops, ms, j, c) && UpToDate(ops, ms, k, c)
    && ops[j].next == Some(t) && !On(ms[j], c, t) && ops[k].next != Some(t)
    && forall m | j < m <= k :: On(ms[m], c, t)
  }

  /** For such a stay a task is charged the later reading less the earlier one. */
  lemma ChargedByReadings(ops: seq<Op>, ms: seq<Machine>, j: nat, k: nat, c: nat, t: nat)
    requires IsRun(ops, ms) && j < k < |ops| && OneStay(ops, ms, j, k, c, t)
    ensures t in ms[j].burst && t in ms[k + 1].burst && ops[j].now <= ops[k].now
    ensures ms[k + 1].burst[t] == (ms[j].burst[t] + (ops[k].now - ops[j].now)) % U64
  {
    hide Inv, Next, Initial, Enabled, UpToDate, On, Running, Pending, OnCpu;
    Switches(ops, ms, j, k, c, t);
    TimeByReadings(ops, ms, j, k, c, t);
    BurstGrowsBy(ops, ms, j, k + 1, t, ops[k].now - ops[j].now);
  }

  lemma TimeByReadings(ops: seq<Op>, ms: seq<Machine>, j: nat, k: nat, c: nat, t: nat)
    requires IsRun(ops, ms) && j < k < |ops| && OneStay(ops, ms, j, k, c, t)
    ensures OnCpu(ops, ms, k + 1, t) - OnCpu(ops, ms, j, t) == ops[k].now - ops[j].now
  {
    ClockIsReading(ops, ms, j, c);
    ClockIsReading(ops, ms, k, c);
    hide Inv, OnCpu, Next, Initial, Enabled;
    TimeAcross(ops, ms, j, k, c, t);
  }

  /** Between two moments at which a task is off the CPUs it is charged its time on them. */
  lemma BurstGrowsBy(ops: seq<Op>, ms: seq<Machine>, j: nat, k: nat, t: nat, time: int)
    requires IsRun(ops, ms) && j <= k <= |ops| && t in ms[j].burst && t in ms[k].burst
    requires !Running(ms[j], t) && !Running(ms[k], t) && time == OnCpu(ops, ms, k, t) - OnCpu(ops, ms, j, t)
    ensures ms[k].burst[t] == (ms[j].burst[t] + time) % U64
  {
    hide Inv, Running, Pending, OnCpu, Next, Initial, Enabled;
    BurstIsTimeOnCpu(ops, ms, j, t);
    BurstIsTimeOnCpu(ops, ms, k, t);
    ModAdd(OnCpu(ops, ms, j, t), time);
  }

  /** Before the first switch and after the second the task is on no CPU. */
  lemma Switches(ops: seq<Op>, ms: seq<Machine>, j: nat, k: nat, c: nat, t: nat)
    requires IsRun(ops, ms) && j < k < |ops| && OneStay(ops, ms, j, k, c, t)
    ensures t in ms[j].burst && t in ms[k + 1].burst && ops[j].now <= ops[k].now
    ensures !Running(ms[j], t) && !Running(ms[k + 1], t)
  {
    RunKeepsInv(ops, ms, j);
    RunKeepsInv(ops, ms, k);
    hide Inv, Next, Initial;
    assert Enabled(ms[j], ops[j]);
    var op := ops[k];
    assert Enabled(ms[k], op);
    PendingOn(ms[k], c, t);
    NextCurrent(ms[k], c, op.now, op.skip, op.next);
    LeavesAll(ms[k], ms[k + 1], c, t);
    BurstGrows(ms[k], op, t);
  }

  lemma BurstGrows(m: Machine, op: Op, t: nat)
    requires Enabled(m, op) && t in m.burst
    ensures t in Next(m, op).burst
  {
    hide ClockAfter;
  }

  lemma TimeAcross(ops: seq<Op>, ms: seq<Machine>, j: nat, k: nat, c: nat, t: nat)
    requires IsRun(ops, ms) && j < k < |ops| && ops[j].Schedule? && ops[j].cpu == c
    requires !On(ms[j], c, t) && c in ms[j + 1].rqs && forall m | j < m <= k :: On(ms[m], c, t)
    ensures c in ms[k + 1].rqs
    ensures OnCpu(ops, ms, k + 1, t) - OnCpu(ops, ms, j, t) == ms[k + 1].rqs[c].clock - ms[j + 1].rqs[c].clock
  {
    hide Next, Initial, Enabled;
    assert Ran(ms[j], ms[j + 1], ops[j], t) == 0;
    TimeFollowsClock(ops, ms, j + 1, k + 1, c, t);
  }

  // ----- the kernel's functions -----

  class Cpus {
    var rqs: map<nat, Rq>
    var lastArrival: map<nat, nat>
    var accumulatedCputime: map<nat, nat>
    ghost var stays: seq<Stay>

    ghost function View(): Machine
      reads this
    {
      Machine(rqs, lastArrival, accumulatedCputime, stays)
    }

    /** `sched_fork`: the counter starts at zero. */
    method SchedFork(t: nat)
      modifies this
      ensures View() == Next(old(View()), Fork(t))
      ensures accumulatedCputime == old(accumulatedCputime)[t := 0] && lastArrival == old(lastArrival)[t := 0]
      ensures rqs == old(rqs)
    {
      lastArrival := lastArrival[t := 0];
      accumulatedCputime := accumulatedCputime[t := 0];
    }

    method UpdateRqClock(cpu: nat, now: nat, skip: bool)
      requires cpu in rqs
      modifies this`rqs
      ensures View() == Tick(old(View()), cpu, now, skip)
      ensures rqs == old(rqs)[cpu := old(rqs)[cpu].(clock := rqs[cpu].clock)]
      ensures old(rqs)[cpu].clock < CLOCK_LIMIT && now < CLOCK_LIMIT ==>
        rqs[cpu].clock == if skip || now < old(rqs)[cpu].clock then old(rqs)[cpu].clock else now
    {
      if rqs[cpu].clock < CLOCK_LIMIT && now < CLOCK_LIMIT {
        ClockIsMonotone(rqs[cpu].clock, now, skip);
      }
      if skip {
        assert rqs[cpu := rqs[cpu]] == rqs;
        return;
      }
      var rq := rqs[cpu];
      var delta := ToSigned((now - rq.clock) % U64);
      if delta < 0 {
        assert rqs[cpu := rqs[cpu]] == rqs;
        return;
      }
      rqs := rqs[cpu := rq.(clock := rq.clock + delta)];
    }

    /** `sched_info_depart`: charge the task since it last arrived. */
    method SchedInfoDepart(cpu: nat, t: nat)
      requires cpu in rqs && rqs[cpu].curr == Some(t) && t in lastArrival && t in accumulatedCputime
      modifies this
      ensures View() == Depart(old(View()), cpu)
      ensures var delta := (old(rqs)[cpu].clock - old(lastArrival)[t]) % U64;
        && accumulatedCputime == old(accumulatedCputime)[t := (old(accumulatedCputime)[t] + delta) % U64]
        && rqs == old(rqs)[cpu := old(rqs)[cpu].(cpuTime := (old(rqs)[cpu].cpuTime + delta) % U64)]
      ensures lastArrival == old(lastArrival)
    {
      var rq := rqs[cpu];
      var delta := (rq.clock - lastArrival[t]) % U64;
      accumulatedCputime := accumulatedCputime[t := (accumulatedCputime[t] + delta) % U64];
      rqs := rqs[cpu := rq.(cpuTime := (rq.cpuTime + delta) % U64)];
      stays := stays + [Stay(t, cpu, lastArrival[t], rq.clock)];
    }

    /** Idle gives up the CPU: nothing is charged, the model notes the time. */
    method IdleDeparts(cpu: nat)
      requires cpu in rqs && rqs[cpu].curr.None?
      modifies this`rqs
      ensures View() == Depart(old(View()), cpu)
    {
      var rq := rqs[cpu];
      rqs := rqs[cpu := if rq.start.None? then rq.(start := Some(rq.clock), idleSince := rq.clock)
                        else rq.(idleTime := rq.idleTime + (if rq.clock >= rq.idleSince then rq.clock - rq.idleSince else 0))];
    }

    /** `sched_info_arrive`: note when the task (or, in the model, idle) took over. */
    method SchedInfoArrive(cpu: nat, next: Option<nat>)
      requires cpu in rqs
      modifies this`rqs, this`lastArrival
      ensures View() == Arrive(old(View()), cpu, next)
      ensures lastArrival == if next.Some? then old(lastArrival)[next.value := old(rqs)[cpu].clock] else old(lastArrival)
      ensures rqs.Keys == old(rqs).Keys && rqs[cpu].curr == next && rqs[cpu].clock == old(rqs)[cpu].clock
    {
      if next.Some? {
        lastArrival := lastArrival[next.value := rqs[cpu].clock];
        rqs := rqs[cpu := rqs[cpu].(curr := next)];
      } else {
        rqs := rqs[cpu := rqs[cpu].(curr := None, idleSince := rqs[cpu].clock)];
      }
    }

    /** `__schedule` as far as the accounting goes: clock, then, if the task changes, depart and arrive. */
    method ScheduleTo(cpu: nat, now: nat, skip: bool, next: Option<nat>)
      requires Inv(View()) && Enabled(View(), Schedule(cpu, now, skip, next))
      modifies this
      ensures View() == Next(old(View()), Schedule(cpu, now, skip, next)) && Inv(View())
      ensures rqs.Keys == old(rqs).Keys && rqs[cpu].curr == next
      ensures rqs[cpu].clock == if skip || now < old(rqs)[cpu].clock then old(rqs)[cpu].clock else now
      ensures forall c | c in rqs && c != cpu :: rqs[c] == old(rqs)[c]
    {
      NextCurrent(View(), cpu, now, skip, next);
      NextClock(View(), Schedule(cpu, now, skip, next), cpu);
      NextKeepsInv(View(), Schedule(cpu, now, skip, next));
      TickKeepsInv(View(), cpu, now, skip);
      hide Inv, Arrive, Depart;
      UpdateRqClock(cpu, now, skip);
      var prev := rqs[cpu].curr;
      if prev == next {
        return;
      }
      CurrentIsKnown(View(), cpu);
      DepartKeepsCpus(View(), cpu);
      if prev.Some? {
        SchedInfoDepart(cpu, prev.value);
      } else {
        IdleDeparts(cpu);
      }
      SchedInfoArrive(cpu, next);
    }

    /** `finish_task_switch` for a dead task, which has been switched out: the value printed. */
    method FinishDeadTask(t: nat, ghost ops: seq<Op>, ghost ms: seq<Machine>) returns (printed: nat)
      requires IsRun(ops, ms) && View() == ms[|ops|]
      requires t in accumulatedCputime && forall c | c in rqs :: rqs[c].curr != Some(t)
      ensures printed == OnCpu(ops, ms, |ops|, t) % U64
    {
      assert !Running(View(), t);
      BurstIsTimeOnCpu(ops, ms, |ops|, t);
      return accumulatedCputime[t];
    }
  }

  lemma DepartKeepsCpus(m: Machine, cpu: nat)
    requires cpu in m.rqs
    ensures cpu in Depart(m, cpu).rqs
  {
  }

  lemma CurrentIsKnown(m: Machine, cpu: nat)
    requires Inv(m) && cpu in m.rqs
    ensures m.rqs[cpu].curr.Some? ==> m.rqs[cpu].curr.value in m.burst && m.rqs[cpu].curr.value in m.lastArrival
  {
    assert RqOk(m, cpu);
  }
}
