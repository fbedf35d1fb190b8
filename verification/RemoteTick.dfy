/**
  The remote tick of one CPU: CPU hotplug starts and stops it by exchanging a state word, while
  a delayed work runs the tick and decides from the same word whether to queue itself again.
  Each atomic operation and each queueing is one step.
 */
module RemoteTick {

  const OFFLINE := 0
  const OFFLINING := 1
  const RUNNING := 2

  /**
    `pending`: works queued; `executing`: work functions before their atomic operation; `owed`:
    queueings decided by a work function but not yet made; `starting`: likewise by a start;
    `online`: whether hotplug has last started or stopped the CPU.
   */
  datatype State = State(word: int, pending: nat, executing: nat, owed: nat, starting: nat, online: bool)

  datatype Op = Start | QueueStart | Stop | Fire | Decide | Requeue

  function Init(): State {
    State(OFFLINE, 0, 0, 0, 0, false)
  }

  /** Starts and stops alternate, and a stop comes after the start has returned. */
  predicate Enabled(s: State, op: Op) {
    match op
    case Start => !s.online
    case QueueStart => s.starting > 0
    case Stop => s.online && s.starting == 0
    case Fire => s.pending > 0
    case Decide => s.executing > 0
    case Requeue => s.owed > 0
  }

  function Next(s: State, op: Op): State
    requires Enabled(s, op)
  {
    match op
    case Start => s.(word := RUNNING, online := true, starting := if s.word == OFFLINE then s.starting + 1 else s.starting)
    case QueueStart => s.(starting := s.starting - 1, pending := s.pending + 1)
    case Stop => s.(word := OFFLINING, online := false)
    case Fire => s.(pending := s.pending - 1, executing := s.executing + 1)
    case Decide =>
      if s.word == RUNNING then s.(executing := s.executing - 1, owed := s.owed + 1)
      else s.(executing := s.executing - 1, word := s.word - 1)
    case Requeue => s.(owed := s.owed - 1, pending := s.pending + 1)
  }

  /** The three state warnings. */
  predicate Warns(s: State, op: Op) {
    || (op.Start? && s.word == RUNNING)
    || (op.Stop? && s.word != RUNNING)
    || (op.Decide? && s.word == OFFLINE)
  }

  /** Tick works pending, running or about to be queued. */
  function InFlight(s: State): nat {
    s.pending + s.executing + s.owed + s.starting
  }

  ghost predicate Inv(s: State) {
    && (s.word == OFFLINE || s.word == OFFLINING || s.word == RUNNING)
    && (s.online <==> s.word == RUNNING)
    && InFlight(s) == (if s.word == OFFLINE then 0 else 1)
    && (s.starting > 0 ==> s.online)
  }

  ghost predicate IsRun(ops: seq<Op>, ss: seq<State>) {
    && |ss| == |ops| + 1
    && ss[0] == Init()
    && forall i | 0 <= i < |ops| :: Enabled(ss[i], ops[i]) && ss[i + 1] == Next(ss[i], ops[i])
  }

  /** In every run exactly one tick work is in flight unless the state is OFFLINE, and nothing warns. */
  lemma {:induction false} OneWorkInFlight(ops: seq<Op>, ss: seq<State>, i: nat)
    requires IsRun(ops, ss) && i <= |ops|
    ensures Inv(ss[i])
    ensures i < |ops| ==> !Warns(ss[i], ops[i])
    ensures i < |ops| && (ops[i].Requeue? || ops[i].QueueStart?) ==> ss[i].pending == 0
  {
    if i > 0 {
      OneWorkInFlight(ops, ss, i - 1);
    }
  }

  /**
    After a final stop the next decision of a work function ends in OFFLINE without requeueing,
    and the tick never runs again.
   */
  lemma {:induction false} FinalStopEndsTheTick(ops: seq<Op>, ss: seq<State>, stop: nat, i: nat)
    requires IsRun(ops, ss) && stop < i <= |ops| && ops[stop].Stop?
    requires forall j | stop < j < i :: !ops[j].Start?
    ensures if exists j :: stop < j < i && ops[j].Decide? then ss[i].word == OFFLINE && InFlight(ss[i]) == 0
            else ss[i].word == OFFLINING && InFlight(ss[i]) == 1
    ensures !ss[i].online && ss[i].word != RUNNING
  {
    OneWorkInFlight(ops, ss, i - 1);
    OneWorkInFlight(ops, ss, i);
    if i > stop + 1 {
      FinalStopEndsTheTick(ops, ss, stop, i - 1);
    }
  }

  /** While the CPU is started the tick goes on: a decision requeues, and no start queues a second work. */
  lemma TicksWhileOnline(ops: seq<Op>, ss: seq<State>, i: nat)
    requires IsRun(ops, ss) && i < |ops|
    ensures ss[i].online && ops[i].Decide? ==> ss[i + 1].owed == 1 && ss[i + 1].pending == ss[i + 1].executing == ss[i + 1].starting == 0
    ensures ops[i].Start? ==> ss[i + 1].starting == if InFlight(ss[i]) == 0 then 1 else 0
  {
    OneWorkInFlight(ops, ss, i);
    OneWorkInFlight(ops, ss, i + 1);
  }

  class TickWork {
    var word: int
    var pending: nat
    var executing: nat
    var owed: nat
    var starting: nat
    ghost var online: bool

    ghost function View(): State
      reads this
    {
      State(word, pending, executing, owed, starting, online)
    }

    constructor ()
      ensures View() == Init()
    {
      word, pending, executing, owed, starting, online := OFFLINE, 0, 0, 0, 0, false;
    }

    /** `sched_tick_start` up to its exchange. */
    method SchedTickStart() returns (warned: bool)
      requires Enabled(View(), Start)
      modifies this
      ensures View() == Next(old(View()), Start) && warned == Warns(old(View()), Start)
      ensures word == 2 && online && (warned <==> old(word) == 2)
      ensures starting == (if old(word) == 0 then old(starting) + 1 else old(starting))
      ensures pending == old(pending) && executing == old(executing) && owed == old(owed)
    {
      var os := word;
      word := RUNNING;
      warned := os == RUNNING;
      online := true;
      if os == OFFLINE {
        starting := starting + 1;
      }
    }

    /** `sched_tick_stop`. */
    method SchedTickStop() returns (warned: bool)
      requires Enabled(View(), Stop)
      modifies this
      ensures View() == Next(old(View()), Stop) && warned == Warns(old(View()), Stop)
      ensures word == 1 && !online && (warned <==> old(word) != 2)
      ensures pending == old(pending) && executing == old(executing) && owed == old(owed) && starting == old(starting)
    {
      var os := word;
      word := OFFLINING;
      warned := os != RUNNING;
      online := false;
    }

    /** The end of `sched_tick_remote`: step the state down unless it is RUNNING, requeue if it is. */
    method SchedTickRemote() returns (warned: bool)
      requires Enabled(View(), Decide)
      modifies this
      ensures View() == Next(old(View()), Decide) && warned == Warns(old(View()), Decide)
      ensures if old(word) == 2 then word == 2 && owed == old(owed) + 1 else word == old(word) - 1 && owed == old(owed)
      ensures executing == old(executing) - 1 && (warned <==> old(word) == 0)
      ensures pending == old(pending) && starting == old(starting) && online == old(online)
    {
      var os := word;
      if os != RUNNING {
        word := word - 1;
      }
      warned := os == OFFLINE;
      executing := executing - 1;
      if os == RUNNING {
        owed := owed + 1;
      }
    }
  }
}
