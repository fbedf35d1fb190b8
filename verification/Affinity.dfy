/**
  Changing the CPU affinity of one task: any number of concurrent callers, `migrate_enable` of
  the task itself and the CPU stopper share `set_affinity_pending` records that live on the
  callers' stacks. Every section under the task's locks, and every access outside them, is one step.
 */
module Affinity {
  import opened Basics

  /** A caller's `set_affinity_pending`, named after the caller that owns it. */
  datatype Record = Record(refs: int, stopPending: bool, done: bool)

  /** Where an agent (a caller, a `migrate_enable`, a stopper run) stands. */
  datatype Phase =
    | OwesWork(record: nat, waits: bool)        // has yet to queue the record's stop work
    | OwesCompletion(record: nat, waits: bool)  // has yet to complete the record
    | Waiting(record: nat)                      // for the completion
    | Woken(record: nat)                        // has seen it, still holds its reference
    | Draining                                  // waits for the references to its own record
    | Gone

  /** `queued` are the stop works handed to the stopper and not yet run, by record. */
  datatype State = State(installed: Option<nat>, records: map<nat, Record>, agents: map<nat, Phase>, queued: multiset<nat>)

  /** What a stopper run finds under the locks. */
  datatype Finding =
    | Pinned        // on this run queue, migration disabled
    | Movable       // on this run queue, free to migrate
    | MovedAllowed  // on another run queue, on an allowed CPU
    | MovedAstray   // on another run queue, not on an allowed CPU

  function Find(here: bool, disabled: bool, allowed: bool): Finding {
    if here then if disabled then Pinned else Movable
    else if allowed then MovedAllowed else MovedAstray
  }

  datatype Op =
    | FitsHere(agent: nat)                                       // caller or migrate_enable, current CPU allowed
    | Request(agent: nat, running: bool, disabled: bool)         // caller, current CPU not allowed
    | Enable(agent: nat)                                         // migrate_enable, current CPU not allowed
    | QueueWork(agent: nat)
    | Stop(agent: nat, record: nat, finding: Finding)
    | Complete(agent: nat)
    | Wake(agent: nat)
    | Drop(agent: nat)
    | Return(agent: nat)

  // ----- the steps -----

  function Uninstall(s: State, r: nat): State {
    if s.installed == Some(r) then s.(installed := None) else s
  }

  function Become(s: State, a: nat, x: Phase): State {
    s.(agents := s.agents[a := x])
  }

  /** The record that a request joins: the installed one, else its own, newly installed. */
  function Join(s: State, a: nat): (State, nat) {
    match s.installed
    case None => (s.(installed := Some(a), records := s.records[a := Record(1, false, false)]), a)
    case Some(r) =>
      (if r in s.records then s.(records := s.records[r := s.records[r].(refs := s.records[r].refs + 1)]) else s, r)
  }

  function SetStopPending(s: State, r: nat, b: bool): State {
    if r in s.records then s.(records := s.records[r := s.records[r].(stopPending := b)]) else s
  }

  predicate StopPending(s: State, r: nat) {
    r in s.records && s.records[r].stopPending
  }

  function After(waits: bool, r: nat): Phase {
    if waits then Waiting(r) else Gone
  }

  /** First branch of the request: complete a pending record that no stop work refers to. */
  function FitHere(s: State, a: nat): State {
    if s.installed.Some? && !StopPending(s, s.installed.value)
    then Become(s.(installed := None), a, OwesCompletion(s.installed.value, false))
    else Become(s, a, Gone)
  }

  /** The rest of it: join a record, then leave the work to the stopper, or complete, or just wait. */
  function Ask(s: State, a: nat, running: bool, disabled: bool): State {
    var (s1, r) := Join(s, a);
    if running then
      Become(SetStopPending(s1, r, true), a, if StopPending(s1, r) then Waiting(r) else OwesWork(r, true))
    else if !disabled && !StopPending(s1, r) then Become(s1.(installed := None), a, OwesCompletion(r, true))
    else Become(s1, a, Waiting(r))
  }

  /** `migrate_enable` off the allowed CPUs. Without a pending record it warns and gives up. */
  function EnableAstray(s: State, a: nat): State {
    match s.installed
    case None => Become(s, a, Gone)
    case Some(r) => Become(SetStopPending(s, r, true), a, if StopPending(s, r) then Gone else OwesWork(r, false))
  }

  function Queue(s: State, a: nat): State {
    if a in s.agents && s.agents[a].OwesWork?
    then Become(s.(queued := s.queued + multiset{s.agents[a].record}), a, After(s.agents[a].waits, s.agents[a].record))
    else s
  }

  /** A run of `migration_cpu_stop` up to the unlock. */
  function RunStop(s: State, a: nat, r: nat, finding: Finding): State {
    var s1 := s.(queued := s.queued - multiset{r});
    match finding
    case Pinned => Become(SetStopPending(s1, r, false), a, Gone)
    case MovedAstray => Become(s1, a, OwesWork(r, false))
    case _ => Become(SetStopPending(Uninstall(s1, r), r, false), a, OwesCompletion(r, false))
  }

  function CompleteAll(s: State, a: nat): State {
    if a in s.agents && s.agents[a].OwesCompletion? && s.agents[a].record in s.records
    then
      var r := s.agents[a].record;
      Become(s.(records := s.records[r := s.records[r].(done := true)]), a, After(s.agents[a].waits, r))
    else s
  }

  function WakeUp(s: State, a: nat): State {
    if a in s.agents && s.agents[a].Waiting? then Become(s, a, Woken(s.agents[a].record)) else s
  }

  function DropRef(s: State, a: nat): State {
    if a in s.agents && s.agents[a].Woken? && s.agents[a].record in s.records
    then
      var r := s.agents[a].record;
      Become(s.(records := s.records[r := s.records[r].(refs := s.records[r].refs - 1)]), a, Draining)
    else s
  }

  function Next(s: State, op: Op): State {
    match op
    case FitsHere(a) => FitHere(s, a)
    case Request(a, running, disabled) => Ask(s, a, running, disabled)
    case Enable(a) => EnableAstray(s, a)
    case QueueWork(a) => Queue(s, a)
    case Stop(a, r, finding) => RunStop(s, a, r, finding)
    case Complete(a) => CompleteAll(s, a)
    case Wake(a) => WakeUp(s, a)
    case Drop(a) => DropRef(s, a)
    case Return(a) => Become(s, a, Gone)
  }

  /** When a step can be taken: new agents are new, and waits end only when their condition holds. */
  ghost predicate Enabled(s: State, op: Op) {
    match op
    case FitsHere(a) => a !in s.agents
    case Request(a, _, _) => a !in s.agents
    case Enable(a) => a !in s.agents
    case QueueWork(a) => a in s.agents && s.agents[a].OwesWork?
    case Stop(a, r, _) => a !in s.agents && r in s.queued
    case Complete(a) => a in s.agents && s.agents[a].OwesCompletion?
    case Wake(a) =>
      && a in s.agents && s.agents[a].Waiting?
      && s.agents[a].record in s.records && s.records[s.agents[a].record].done
    case Drop(a) => a in s.agents && s.agents[a].Woken?
    case Return(a) =>
      && a in s.agents && s.agents[a] == Draining
      && (a in s.records ==> s.records[a].refs == 0)
  }

  /** The two warnings: a stopper run that chases a record without stop_pending, an owner that returns with it. */
  ghost predicate Warns(s: State, op: Op) {
    || (op.Stop? && op.finding.MovedAstray? && !StopPending(s, op.record))
    || (op.Return? && StopPending(s, op.agent))
  }

  // ----- counting agents -----

  ghost function Where(agents: map<nat, Phase>, p: Phase -> bool): set<nat> {
    set a: nat | a in agents && p(agents[a])
  }

  ghost function Count(agents: map<nat, Phase>, p: Phase -> bool): nat {
    |Where(agents, p)|
  }

  lemma WhereSet(agents: map<nat, Phase>, a: nat, x: Phase, p: Phase -> bool)
    ensures Where(agents[a := x], p) - {a} == Where(agents, p) - {a}
    ensures a in Where(agents[a := x], p) <==> p(x)
    ensures a in Where(agents, p) <==> a in agents && p(agents[a])
  {
    forall b | b != a ensures b in Where(agents[a := x], p) <==> b in Where(agents, p) {
    }
  }

  lemma WithOrWithout(w: set<nat>, a: nat)
    ensures |w| == |w - {a}| + One(a in w)
  {
    if a in w {
      assert w == (w - {a}) + {a};
    } else {
      assert w == w - {a};
    }
  }

  lemma CountSet(agents: map<nat, Phase>, a: nat, x: Phase, p: Phase -> bool)
    ensures Count(agents[a := x], p) == Count(agents, p) - One(a in agents && p(agents[a])) + One(p(x))
  {
    WhereSet(agents, a, x, p);
    WithOrWithout(Where(agents, p), a);
    WithOrWithout(Where(agents[a := x], p), a);
  }

  lemma CountPositive(agents: map<nat, Phase>, p: Phase -> bool, a: nat)
    requires a in agents && p(agents[a])
    ensures Count(agents, p) > 0
  {
    assert a in Where(agents, p);
  }

  predicate WorksOn(x: Phase, r: nat) {
    x.OwesWork? && x.record == r
  }

  predicate CompletesOn(x: Phase, r: nat) {
    x.OwesCompletion? && x.record == r
  }

  /** A caller that has joined the record and not yet dropped its reference. */
  predicate HoldsOn(x: Phase, r: nat) {
    match x
    case OwesWork(q, waits) => q == r && waits
    case OwesCompletion(q, waits) => q == r && waits
    case Waiting(q) => q == r
    case Woken(q) => q == r
    case _ => false
  }

  function Works(r: nat): Phase -> bool {
    (x: Phase) => WorksOn(x, r)
  }

  function Completes(r: nat): Phase -> bool {
    (x: Phase) => CompletesOn(x, r)
  }

  function Holds(r: nat): Phase -> bool {
    (x: Phase) => HoldsOn(x, r)
  }

  /** Stop works in flight for a record: queued, or about to be queued. */
  ghost function InFlight(s: State, r: nat): nat {
    s.queued[r] + Count(s.agents, Works(r))
  }

  // ----- the invariant -----

  ghost predicate RecordOk(s: State, r: nat)
    requires r in s.records
  {
    var d := s.records[r];
    && r in s.agents
    && InFlight(s, r) == One(d.stopPending)
    && (d.stopPending ==> s.installed == Some(r))
    && Count(s.agents, Completes(r)) + One(d.done) + One(s.installed == Some(r)) == 1
    && d.refs == Count(s.agents, Holds(r))
    && (HoldsOn(s.agents[r], r) || (d.done && (s.agents[r] == Draining || (s.agents[r] == Gone && d.refs == 0))))
  }

  ghost predicate Mentions(x: Phase, r: nat) {
    (x.OwesWork? || x.OwesCompletion? || x.Waiting? || x.Woken?) && x.record == r
  }

  ghost predicate AgentOk(s: State, a: nat)
    requires a in s.agents
  {
    var x := s.agents[a];
    && (x.OwesWork? || x.OwesCompletion? || x.Waiting? || x.Woken? ==> x.record in s.records)
    && (x.Woken? ==> s.records[x.record].done)
  }

  ghost predicate Inv(s: State) {
    && (forall r | r in s.records :: RecordOk(s, r))
    && (forall a | a in s.agents :: AgentOk(s, a))
    && (forall r | r in s.queued :: r in s.records)
    && (s.installed.Some? ==> s.installed.value in s.records)
  }

  ghost function Init(): State {
    State(None, map[], map[], multiset{})
  }

  lemma CountsAfter(s: State, a: nat, x: Phase, r: nat)
    ensures var m := s.agents[a := x]; var was := if a in s.agents then s.agents[a] else Gone;
      && Count(m, Works(r)) == Count(s.agents, Works(r)) - One(WorksOn(was, r)) + One(WorksOn(x, r))
      && Count(m, Completes(r)) == Count(s.agents, Completes(r)) - One(CompletesOn(was, r)) + One(CompletesOn(x, r))
      && Count(m, Holds(r)) == Count(s.agents, Holds(r)) - One(HoldsOn(was, r)) + One(HoldsOn(x, r))
  {
    CountSet(s.agents, a, x, Works(r));
    CountSet(s.agents, a, x, Completes(r));
    CountSet(s.agents, a, x, Holds(r));
  }

  lemma Unmentioned(s: State, r: nat)
    requires Inv(s) && r !in s.records
    ensures InFlight(s, r) == 0 && Count(s.agents, Completes(r)) == 0 && Count(s.agents, Holds(r)) == 0
    ensures s.queued[r] == 0 && s.installed != Some(r)
  {
    forall a | a in s.agents
      ensures !WorksOn(s.agents[a], r) && !CompletesOn(s.agents[a], r) && !HoldsOn(s.agents[a], r)
    {
      assert AgentOk(s, a);
    }
    assert Where(s.agents, Works(r)) == {};
    assert Where(s.agents, Completes(r)) == {};
    assert Where(s.agents, Holds(r)) == {};
  }

  /** What an invariant-preserving step does to the agents: one agent moves, no record is lost or undone. */
  lemma AgentsKeep(s: State, s': State, a: nat, x: Phase)
    requires Inv(s) && s'.agents == s.agents[a := x]
    requires forall r | r in s.records :: r in s'.records && (s.records[r].done ==> s'.records[r].done)
    requires x.OwesWork? || x.OwesCompletion? || x.Waiting? || x.Woken? ==> x.record in s'.records
    requires x.Woken? ==> s'.records[x.record].done
    ensures forall b | b in s'.agents :: AgentOk(s', b)
  {
    forall b | b in s'.agents ensures AgentOk(s', b) {
      assert b != a ==> AgentOk(s, b);
    }
  }

  /**
    The numbers that keep record `r` right when agent `a` becomes `x`: works against stop_pending,
    completions against the installed pointer and `done`, references against their holders.
   */
  ghost predicate Balanced(s: State, s': State, a: nat, x: Phase, r: nat)
    requires r in s.records && r in s'.records
  {
    var was := if a in s.agents then s.agents[a] else Gone;
    var d, d' := s.records[r], s'.records[r];
    && s'.queued[r] + One(WorksOn(x, r)) + One(d.stopPending) == s.queued[r] + One(WorksOn(was, r)) + One(d'.stopPending)
    && (d'.stopPending ==> s'.installed == Some(r))
    && One(CompletesOn(x, r)) + One(d'.done) + One(s'.installed == Some(r))
         == One(CompletesOn(was, r)) + One(d.done) + One(s.installed == Some(r))
    && d'.refs + One(HoldsOn(was, r)) == d.refs + One(HoldsOn(x, r))
    && (d.done ==> d'.done)
    && (a == r ==> HoldsOn(x, r) || (d'.done && (x == Draining || (x == Gone && d'.refs == 0))))
    && (a != r && HoldsOn(x, r) && !HoldsOn(was, r) ==> !d.done)
  }

  lemma RecordAfter(s: State, s': State, a: nat, x: Phase, r: nat)
    requires Inv(s) && r in s.records && r in s'.records && s'.agents == s.agents[a := x]
    requires Balanced(s, s', a, x, r)
    ensures RecordOk(s', r)
  {
    assert RecordOk(s, r);
    CountsAfter(s, a, x, r);
    var was := if a in s.agents then s.agents[a] else Gone;
    if HoldsOn(was, r) {
      CountPositive(s.agents, Holds(r), a);
    }
  }

  /** A step that keeps every existing record balanced and installs at most a well-formed new one. */
  lemma StepKeepsInv(s: State, s': State, a: nat, x: Phase)
    requires Inv(s) && s'.agents == s.agents[a := x]
    requires forall r | r in s.records :: r in s'.records && Balanced(s, s', a, x, r)
    requires forall r | r in s'.records && r !in s.records :: RecordOk(s', r)
    requires x.OwesWork? || x.OwesCompletion? || x.Waiting? || x.Woken? ==> x.record in s'.records
    requires x.Woken? ==> s'.records[x.record].done
    requires forall r | r in s'.queued :: r in s'.records
    requires s'.installed.Some? ==> s'.installed.value in s'.records
    ensures Inv(s')
  {
    forall r | r in s'.records ensures RecordOk(s', r) {
      if r in s.records {
        RecordAfter(s, s', a, x, r);
      }
    }
    AgentsKeep(s, s', a, x);
  }

  /** A new agent leaves the records that it has nothing to do with alone. */
  lemma Untouched(s: State, s': State, a: nat, x: Phase, r: nat)
    requires Inv(s) && a !in s.agents && r in s.records && r in s'.records && !Mentions(x, r)
    requires s'.records[r] == s.records[r] && s'.queued[r] == s.queued[r]
    requires s'.installed == Some(r) <==> s.installed == Some(r)
    ensures Balanced(s, s', a, x, r)
  {
    assert RecordOk(s, r);
  }

  /** A new agent takes a step that concerns record `q` only. */
  ghost predicate Touches(s: State, s': State, a: nat, q: nat) {
    && a !in s.agents && a in s'.agents && s'.agents == s.agents[a := s'.agents[a]]
    && q in s.records && q in s'.records && s'.records == s.records[q := s'.records[q]]
    && (forall r | r != q :: s'.queued[r] == s.queued[r])
    && (s'.installed == s.installed || (s.installed == Some(q) && s'.installed.None?))
    && var x := s'.agents[a];
      x != Gone ==> (x.OwesWork? || x.OwesCompletion? || x.Waiting?) && x.record == q
  }

  lemma OneRecordStep(s: State, s': State, a: nat, q: nat)
    requires Inv(s) && Touches(s, s', a, q)
    requires Balanced(s, s', a, s'.agents[a], q)
    ensures Inv(s')
  {
    var x := s'.agents[a];
    forall r | r in s.records && r != q ensures r in s'.records && Balanced(s, s', a, x, r) {
      Untouched(s, s', a, x, r);
    }
    assert forall r | r in s'.queued && r != q :: r in s.queued;
    hide Balanced, RecordOk, AgentOk;
    StepKeepsInv(s, s', a, x);
  }

  lemma FitHereBalanced(s: State, a: nat, q: nat)
    requires q in s.records && a !in s.agents && s.installed == Some(q) && RecordOk(s, q)
    ensures var s' := FitHere(s, a); Touches(s, s', a, q) && Balanced(s, s', a, s'.agents[a], q)
  {
  }

  lemma FitHereKeepsInv(s: State, a: nat)
    requires Inv(s) && a !in s.agents
    ensures Inv(FitHere(s, a))
  {
    var s' := FitHere(s, a);
    if s.installed.Some? {
      var q := s.installed.value;
      assert RecordOk(s, q);
      FitHereBalanced(s, a, q);
      hide Inv, Balanced, RecordOk, Touches, FitHere;
      OneRecordStep(s, s', a, q);
    } else {
      GoneKeepsInv(s, a);
    }
  }

  /** An agent that finds nothing to do changes no record. */
  lemma GoneKeepsInv(s: State, a: nat)
    requires Inv(s) && a !in s.agents
    ensures Inv(Become(s, a, Gone))
  {
    var s' := Become(s, a, Gone);
    forall r | r in s.records ensures Balanced(s, s', a, Gone, r) {
      Untouched(s, s', a, Gone, r);
    }
    hide Balanced, RecordOk, AgentOk;
    StepKeepsInv(s, s', a, Gone);
  }

  lemma EnableBalanced(s: State, a: nat, q: nat)
    requires q in s.records && a !in s.agents && s.installed == Some(q) && RecordOk(s, q)
    ensures var s' := EnableAstray(s, a); Touches(s, s', a, q) && Balanced(s, s', a, s'.agents[a], q)
  {
  }

  lemma EnableKeepsInv(s: State, a: nat)
    requires Inv(s) && a !in s.agents
    ensures Inv(EnableAstray(s, a))
  {
    var s' := EnableAstray(s, a);
    if s.installed.Some? {
      var q := s.installed.value;
      assert RecordOk(s, q);
      EnableBalanced(s, a, q);
      hide Inv, Balanced, RecordOk, Touches, EnableAstray;
      OneRecordStep(s, s', a, q);
    } else {
      GoneKeepsInv(s, a);
    }
  }

  lemma StopBalanced(s: State, a: nat, q: nat, finding: Finding)
    requires q in s.records && a !in s.agents && q in s.queued && RecordOk(s, q)
    ensures var s' := RunStop(s, a, q, finding); Touches(s, s', a, q) && Balanced(s, s', a, s'.agents[a], q)
  {
  }

  lemma RunStopKeepsInv(s: State, a: nat, q: nat, finding: Finding)
    requires Inv(s) && a !in s.agents && q in s.queued
    ensures Inv(RunStop(s, a, q, finding))
  {
    assert RecordOk(s, q);
    StopBalanced(s, a, q, finding);
    hide Inv, Balanced, RecordOk, Touches, RunStop;
    OneRecordStep(s, RunStop(s, a, q, finding), a, q);
  }

  lemma JoinBalanced(s: State, a: nat, running: bool, disabled: bool, q: nat)
    requires q in s.records && a !in s.agents && s.installed == Some(q) && RecordOk(s, q)
    requires a in s.records ==> RecordOk(s, a)
    ensures var s' := Ask(s, a, running, disabled); Touches(s, s', a, q) && Balanced(s, s', a, s'.agents[a], q)
  {
    hide Count;
  }

  lemma AskJoin(s: State, a: nat, running: bool, disabled: bool)
    requires Inv(s) && a !in s.agents && s.installed.Some?
    ensures Inv(Ask(s, a, running, disabled))
  {
    var q := s.installed.value;
    assert a in s.records ==> RecordOk(s, a);
    assert RecordOk(s, q);
    JoinBalanced(s, a, running, disabled, q);
    hide Inv, Balanced, RecordOk, Touches, Ask;
    OneRecordStep(s, Ask(s, a, running, disabled), a, q);
  }

  lemma QueueBalanced(s: State, a: nat, r: nat)
    requires a in s.agents && s.agents[a].OwesWork? && r in s.records && RecordOk(s, r)
    ensures var s' := Queue(s, a); Balanced(s, s', a, s'.agents[a], r)
  {
  }

  lemma QueueKeepsInv(s: State, a: nat)
    requires Inv(s) && a in s.agents && s.agents[a].OwesWork?
    ensures Inv(Queue(s, a))
  {
    var s' := Queue(s, a);
    assert AgentOk(s, a);
    forall r | r in s.records ensures Balanced(s, s', a, s'.agents[a], r) {
      assert RecordOk(s, r);
      QueueBalanced(s, a, r);
    }
    assert forall r | r in s'.queued :: r in s'.records;
    hide Balanced, RecordOk;
    StepKeepsInv(s, s', a, s'.agents[a]);
  }

  lemma CompleteBalanced(s: State, a: nat, r: nat)
    requires a in s.agents && s.agents[a].OwesCompletion? && s.agents[a].record in s.records
    requires r in s.records && RecordOk(s, r) && Count(s.agents, Completes(s.agents[a].record)) > 0
    ensures var s' := CompleteAll(s, a); r in s'.records && Balanced(s, s', a, s'.agents[a], r)
  {
  }

  lemma CompleteKeepsInv(s: State, a: nat)
    requires Inv(s) && a in s.agents && s.agents[a].OwesCompletion?
    ensures Inv(CompleteAll(s, a))
  {
    var s' := CompleteAll(s, a);
    assert AgentOk(s, a);
    CountPositive(s.agents, Completes(s.agents[a].record), a);
    forall r | r in s.records ensures r in s'.records && Balanced(s, s', a, s'.agents[a], r) {
      assert RecordOk(s, r);
      CompleteBalanced(s, a, r);
    }
    hide Balanced, RecordOk;
    StepKeepsInv(s, s', a, s'.agents[a]);
  }

  lemma WakeUpKeepsInv(s: State, a: nat)
    requires Inv(s) && Enabled(s, Wake(a))
    ensures Inv(WakeUp(s, a))
  {
    var s' := WakeUp(s, a);
    forall r | r in s.records ensures Balanced(s, s', a, s'.agents[a], r) {
      assert RecordOk(s, r);
    }
    StepKeepsInv(s, s', a, s'.agents[a]);
  }

  lemma DropKeepsInv(s: State, a: nat)
    requires Inv(s) && a in s.agents && s.agents[a].Woken?
    ensures Inv(DropRef(s, a))
  {
    var s' := DropRef(s, a);
    assert AgentOk(s, a);
    forall r | r in s.records ensures Balanced(s, s', a, Draining, r) {
      assert RecordOk(s, r);
    }
    StepKeepsInv(s, s', a, Draining);
  }

  lemma ReturnKeepsInv(s: State, a: nat)
    requires Inv(s) && Enabled(s, Return(a))
    ensures Inv(Become(s, a, Gone))
  {
    var s' := Become(s, a, Gone);
    forall r | r in s.records ensures Balanced(s, s', a, Gone, r) {
      assert RecordOk(s, r);
    }
    StepKeepsInv(s, s', a, Gone);
  }

  /** Installing a new record with one reference, that of its owner. */
  lemma NewRecord(s: State, s': State, a: nat, x: Phase)
    requires Inv(s) && a !in s.agents && s'.agents == s.agents[a := x] && a in s'.records && a !in s.records
    requires s'.queued[a] == s.queued[a]
    requires HoldsOn(x, a) && !x.Woken?
    requires var d := s'.records[a];
      && d.refs == 1 && !d.done
      && d.stopPending == x.OwesWork?
      && s'.installed == (if x.OwesCompletion? then None else Some(a))
    ensures RecordOk(s', a)
  {
    Unmentioned(s, a);
    CountsAfter(s, a, x, a);
  }

  lemma AskNewRecord(s: State, a: nat, running: bool, disabled: bool, s': State)
    requires Inv(s) && a !in s.agents && a !in s.records && s.installed.None?
    requires s' == Ask(s, a, running, disabled)
    ensures s'.agents == s.agents[a := s'.agents[a]] && s'.queued == s.queued
    ensures s'.records.Keys == s.records.Keys + {a} && RecordOk(s', a)
    ensures s'.installed == None || s'.installed == Some(a)
    ensures var x := s'.agents[a]; (x.OwesWork? || x.OwesCompletion? || x.Waiting?) && x.record == a
  {
    hide Inv, RecordOk;
    NewRecord(s, s', a, s'.agents[a]);
  }

  lemma AskNew(s: State, a: nat, running: bool, disabled: bool, s': State)
    requires Inv(s) && a !in s.agents && a !in s.records && s.installed.None?
    requires s' == Ask(s, a, running, disabled)
    ensures Inv(s')
  {
    assert forall r | r in s.queued :: r in s.records;
    hide Inv, RecordOk, Balanced, Ask;
    AskNewRecord(s, a, running, disabled, s');
    var x := s'.agents[a];
    forall r | r in s.records ensures r in s'.records && Balanced(s, s', a, x, r) {
      AskOther(s, a, running, disabled, s', r);
    }
    StepKeepsInv(s, s', a, x);
  }

  lemma AskOther(s: State, a: nat, running: bool, disabled: bool, s': State, r: nat)
    requires Inv(s) && a !in s.agents && a !in s.records && s.installed.None? && r in s.records
    requires s' == Ask(s, a, running, disabled)
    ensures r in s'.records && Balanced(s, s', a, s'.agents[a], r)
  {
    hide Inv, Balanced;
    Untouched(s, s', a, s'.agents[a], r);
  }

  lemma AskKeepsInv(s: State, a: nat, running: bool, disabled: bool)
    requires Inv(s) && a !in s.agents
    ensures Inv(Ask(s, a, running, disabled))
  {
    assert a in s.records ==> RecordOk(s, a);
    if s.installed.None? {
      AskNew(s, a, running, disabled, Ask(s, a, running, disabled));
    } else {
      AskJoin(s, a, running, disabled);
    }
  }

  /** Neither warning can fire. */
  lemma NeverWarns(s: State, op: Op)
    requires Inv(s) && Enabled(s, op)
    ensures !Warns(s, op)
  {
    if op.Stop? {
      assert RecordOk(s, op.record);
    } else if op.Return? && op.agent in s.records {
      assert RecordOk(s, op.agent);
    }
  }

  lemma NextKeepsInv(s: State, op: Op)
    requires Inv(s) && Enabled(s, op)
    ensures Inv(Next(s, op))
  {
    match op
    case FitsHere(a) => FitHereKeepsInv(s, a);
    case Request(a, running, disabled) => AskKeepsInv(s, a, running, disabled);
    case Enable(a) => EnableKeepsInv(s, a);
    case QueueWork(a) => QueueKeepsInv(s, a);
    case Stop(a, r, finding) => RunStopKeepsInv(s, a, r, finding);
    case Complete(a) => CompleteKeepsInv(s, a);
    case Wake(a) => WakeUpKeepsInv(s, a);
    case Drop(a) => DropKeepsInv(s, a);
    case Return(a) => ReturnKeepsInv(s, a);
  }

  // ----- what it means, over every run -----

  ghost predicate IsRun(ops: seq<Op>, ss: seq<State>) {
    && |ss| == |ops| + 1
    && ss[0] == Init()
    && forall i | 0 <= i < |ops| :: Enabled(ss[i], ops[i]) && ss[i + 1] == Next(ss[i], ops[i])
  }

  lemma {:induction false} RunIsSafe(ops: seq<Op>, ss: seq<State>, i: nat)
    requires IsRun(ops, ss) && i <= |ops|
    ensures Inv(ss[i])
    ensures i < |ops| ==> !Warns(ss[i], ops[i])
  {
    if i > 0 {
      RunIsSafe(ops, ss, i - 1);
      NextKeepsInv(ss[i - 1], ops[i - 1]);
    }
    if i < |ops| {
      NeverWarns(ss[i], ops[i]);
    }
  }

  /** Once its owner has returned, nothing refers to a record: not the task, not the stopper, no agent. */
  lemma NoDanglingReference(ops: seq<Op>, ss: seq<State>, i: nat, r: nat)
    requires IsRun(ops, ss) && i <= |ops|
    requires var s := ss[i]; r in s.records && r in s.agents && s.agents[r] == Gone
    ensures var s := ss[i];
      && s.installed != Some(r) && s.queued[r] == 0
      && s.records[r].refs == 0 && !s.records[r].stopPending
      && forall a | a in s.agents :: !Mentions(s.agents[a], r)
  {
    RunIsSafe(ops, ss, i);
    var s := ss[i];
    assert RecordOk(s, r);
    forall a | a in s.agents ensures !Mentions(s.agents[a], r) {
      if WorksOn(s.agents[a], r) {
        CountPositive(s.agents, Works(r), a);
      } else if CompletesOn(s.agents[a], r) {
        CountPositive(s.agents, Completes(r), a);
      } else if HoldsOn(s.agents[a], r) {
        CountPositive(s.agents, Holds(r), a);
      }
    }
  }

  /** A record with stop_pending is the installed one and has exactly one stop work in flight; any other has none. */
  lemma StopWorkInFlight(ops: seq<Op>, ss: seq<State>, i: nat, r: nat)
    requires IsRun(ops, ss) && i <= |ops| && r in ss[i].records
    ensures var s := ss[i]; var d := s.records[r];
      && InFlight(s, r) == (if d.stopPending then 1 else 0)
      && (d.stopPending ==> s.installed == Some(r))
      && d.refs == Count(s.agents, Holds(r))
  {
    RunIsSafe(ops, ss, i);
    assert RecordOk(ss[i], r);
  }

  /** A record is completed once, when it is uninstalled, idle, and its owner cannot have left. */
  lemma CompletedWhenUninstalled(ops: seq<Op>, ss: seq<State>, i: nat)
    requires IsRun(ops, ss) && i < |ops| && ops[i].Complete?
    ensures var s := ss[i]; var r := s.agents[ops[i].agent].record;
      && r in s.records && r in s.agents && !s.records[r].done
      && s.installed != Some(r) && InFlight(s, r) == 0
      && HoldsOn(s.agents[r], r)
  {
    RunIsSafe(ops, ss, i);
    var s, a := ss[i], ops[i].agent;
    assert AgentOk(s, a);
    var r := s.agents[a].record;
    assert RecordOk(s, r);
    CountPositive(s.agents, Completes(r), a);
  }

  /** A waiter's record is completed, still installed, or about to be completed by some agent. */
  lemma WaiterOfState(s: State, a: nat)
    requires Inv(s) && a in s.agents && s.agents[a].Waiting?
    ensures var r := s.agents[a].record;
      && r in s.records
      && (s.records[r].done || s.installed == Some(r)
          || exists b :: b in s.agents && s.agents[b].OwesCompletion? && s.agents[b].record == r)
  {
    assert AgentOk(s, a);
    var r := s.agents[a].record;
    assert RecordOk(s, r);
    if !s.records[r].done && s.installed != Some(r) {
      assert Where(s.agents, Completes(r)) != {};
      var b :| b in Where(s.agents, Completes(r));
      assert s.agents[b].OwesCompletion? && s.agents[b].record == r;
    }
  }

  /** The stop work embedded in a record is free whenever an agent is about to queue it. */
  lemma StopWorkIsFree(ops: seq<Op>, ss: seq<State>, i: nat)
    requires IsRun(ops, ss) && i < |ops| && ops[i].QueueWork?
    ensures ss[i].queued[ss[i].agents[ops[i].agent].record] == 0
  {
    RunIsSafe(ops, ss, i);
    var s, a := ss[i], ops[i].agent;
    assert AgentOk(s, a);
    assert RecordOk(s, s.agents[a].record);
    CountPositive(s.agents, Works(s.agents[a].record), a);
  }

  // ----- the kernel's functions -----

  class Task {
    var migrationPending: Option<nat>
    var records: map<nat, Record>
    var agents: map<nat, Phase>
    var queued: multiset<nat>

    ghost function View(): State
      reads this
    {
      State(migrationPending, records, agents, queued)
    }

    /** The pointer on the task names a record that exists. */
    ghost predicate Valid()
      reads this
    {
      migrationPending.Some? ==> migrationPending.value in records
    }

    constructor ()
      ensures Valid() && View() == Init()
    {
      migrationPending, records, agents, queued := None, map[], map[], multiset{};
    }

    /** First branch of `affine_move_task`: the task may stay on its CPU. */
    method TaskFits(me: nat)
      requires Valid()
      modifies this
      ensures Valid() && View() == Next(old(View()), FitsHere(me))
    {
      var complete, pending := false, migrationPending;
      if pending.Some? && !records[pending.value].stopPending {
        migrationPending := None;
        complete := true;
      }
      agents := agents[me := if complete then OwesCompletion(pending.value, false) else Gone];
    }

    /** A request joins the pending record of the task, or installs its own. */
    method JoinPending(me: nat) returns (r: nat)
      requires Valid()
      modifies this
      ensures Valid() && (View(), r) == Join(old(View()), me) && r in records
    {
      if migrationPending.None? {
        records := records[me := Record(1, false, false)];
        migrationPending := Some(me);
        r := me;
      } else {
        r := migrationPending.value;
        records := records[r := records[r].(refs := records[r].refs + 1)];
      }
    }

    /** `affine_move_task` up to the unlock; `enable` is the flag of `migrate_enable`, which runs on the task itself. */
    method AffineMoveTask(me: nat, enable: bool, allowed: bool, running: bool, disabled: bool) returns (warned: bool)
      requires Valid() && (enable ==> running)
      modifies this
      ensures Valid()
      ensures View() == Next(old(View()), if allowed then FitsHere(me) else if enable then Enable(me) else Request(me, running, disabled))
      ensures warned <==> !allowed && enable && old(migrationPending).None?
    {
      warned := false;
      if allowed {
        TaskFits(me);
        return;
      }
      var r: nat;
      if !enable {
        r := JoinPending(me);
      } else if migrationPending.None? {
        agents := agents[me := Gone];
        return true;
      } else {
        r := migrationPending.value;
      }
      var stopPending := records[r].stopPending;
      if running {
        if !stopPending {
          records := records[r := records[r].(stopPending := true)];
        }
        agents := agents[me := if !stopPending then OwesWork(r, !enable) else if enable then Gone else Waiting(r)];
        assert records == SetStopPending(old(View()), r, true).records || !enable;
      } else {
        var complete := false;
        if !disabled && !stopPending {
          migrationPending := None;
          complete := true;
        }
        agents := agents[me := if complete then OwesCompletion(r, true) else Waiting(r)];
      }
    }

    /** `migration_pending` is cleared if it still is this record. */
    method UninstallPending(r: nat)
      modifies this`migrationPending
      ensures View() == Uninstall(old(View()), r)
    {
      if migrationPending == Some(r) {
        migrationPending := None;
      }
    }

    /** The common end of a stopper run that does not requeue itself. */
    method EndStop(me: nat, r: nat, complete: bool)
      requires r in records
      modifies this`records, this`agents
      ensures View() == Become(SetStopPending(old(View()), r, false), me, if complete then OwesCompletion(r, false) else Gone)
      ensures records.Keys == old(records.Keys)
    {
      records := records[r := records[r].(stopPending := false)];
      agents := agents[me := if complete then OwesCompletion(r, false) else Gone];
    }

    /** `migration_cpu_stop` on the work of record `r`, up to the unlock. */
    method MigrationCpuStop(me: nat, r: nat, here: bool, disabled: bool, allowed: bool) returns (warned: bool)
      requires Valid() && r in queued && r in records
      modifies this
      ensures Valid()
      ensures View() == RunStop(old(View()), me, r, Find(here, disabled, allowed))
      ensures warned <==> Find(here, disabled, allowed).MovedAstray? && !StopPending(old(View()), r)
    {
      warned := false;
      var complete := false;
      queued := queued - multiset{r};
      if here {
        if !disabled {
          UninstallPending(r);
          complete := true;
        }
      } else if allowed {
        UninstallPending(r);
        complete := true;
      } else {
        warned := !records[r].stopPending;
        agents := agents[me := OwesWork(r, false)];
        return;
      }
      EndStop(me, r, complete);
    }

    /** `stop_one_cpu_nowait`, after the locks are dropped. */
    method StopOneCpuNowait(me: nat)
      requires Valid() && Enabled(View(), QueueWork(me)) && agents[me].record in records
      modifies this
      ensures Valid() && View() == Next(old(View()), QueueWork(me))
    {
      var r, waits := agents[me].record, agents[me].waits;
      queued := queued + multiset{r};
      agents := agents[me := if waits then Waiting(r) else Gone];
    }

    /** `complete_all`, after the locks are dropped. */
    method CompleteAllOf(me: nat)
      requires Valid() && Enabled(View(), Complete(me)) && agents[me].record in records
      modifies this
      ensures Valid() && View() == Next(old(View()), Complete(me))
    {
      var r, waits := agents[me].record, agents[me].waits;
      records := records[r := records[r].(done := true)];
      agents := agents[me := if waits then Waiting(r) else Gone];
    }

    /** `refcount_dec_and_test` of a caller that has seen the completion. */
    method RefcountDecAndTest(me: nat) returns (last: bool)
      requires Valid() && Enabled(View(), Drop(me)) && agents[me].record in records
      modifies this
      ensures Valid() && View() == Next(old(View()), Drop(me))
      ensures last <==> records[old(agents[me]).record].refs == 0
    {
      var r := agents[me].record;
      records := records[r := records[r].(refs := records[r].refs - 1)];
      agents := agents[me := Draining];
      last := records[r].refs == 0;
    }

    /** The end of `wait_var_event` and the final check of the caller's own record. */
    method ReturnFromCall(me: nat) returns (warned: bool)
      requires Valid() && Enabled(View(), Return(me))
      modifies this
      ensures Valid() && View() == Next(old(View()), Return(me)) && warned == Warns(old(View()), Return(me))
    {
      warned := me in records && records[me].stopPending;
      agents := agents[me := Gone];
    }
  }
}
