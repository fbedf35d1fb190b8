/**
  The CPU masks behind the affinity hand-off: where the task is, what `cpus_mask` and `cpus_ptr` say,
  and which branch a request, a `migrate_enable` or a stopper run takes because of them. Every step
  takes one step of the hand-off or none; what it adds is when `migrate_enable` finds no record.
 */
module AffinityMasks {
  import opened Basics
  import opened Affinity

  /**
    Leaving: taken off its run queue, but its CPU has not finished switching away from it.
    Waking: a CPU has been chosen, the task is not on its run queue yet.
   */
  datatype Status = Blocked | Waking | Queued | Running | Leaving

  /**
    `cpusPtr` is None while it points at the task's own mask, and Some(c) once it points at the
    mask of CPU `c` alone; `disabled` counts the nested migrate_disable calls.
   */
  datatype Place = Place(cpu: nat, cpusMask: set<nat>, cpusPtr: Option<nat>, disabled: nat, status: Status)

  /**
    `target`: the CPU to which an agent that owes a stop work will queue it, None when it reads the
    task's CPU only then; `workCpu`: the CPU whose stopper has the work of a record.
   */
  datatype World = World(sync: State, place: Place, target: map<nat, Option<nat>>, workCpu: map<nat, nat>)

  /** A request: `self` when the task changes its own mask, `check` when it must respect a fixed affinity. */
  datatype Change = Change(mask: set<nat>, self: bool, check: bool)

  /** What a request finds: the CPUs in use, and whether the task is a kernel thread or has its affinity fixed. */
  datatype Setting = Setting(active: set<nat>, online: set<nat>, kthread: bool, noSetAffinity: bool)

  datatype Event =
    | SetMask(agent: nat, change: Change, setting: Setting, dest: nat)
    | MigrateDisable
    | MigrateEnable(agent: nat)
    | SwitchIn
    | SwitchOut(sleeps: bool)
    | Left                  // the CPU has switched away
    | WakeInPlace           // a wake-up before that goes to the wake list of the task's CPU, unasked
    | ChooseCpu(cpu: nat)   // any other wake-up selects a run queue
    | Enqueue
    | Balance(cpu: nat)     // the load balancer moves a queued task
    | StopperRun(agent: nat, record: nat, dest: nat)
    | HandOff(op: Op)       // a step of an agent outside the locks

  /** The task may be put on this CPU. */
  predicate MayUse(p: Place, cpu: nat) {
    match p.cpusPtr
    case None => cpu in p.cpusMask
    case Some(c) => cpu == c
  }

  predicate OnCpuOrWaking(p: Place) {
    p.status.Running? || p.status.Waking?
  }

  // ----- the steps -----

  /** A request that is turned down or has nothing to change. */
  predicate Refused(p: Place, c: Change, st: Setting) {
    || (c.check && st.noSetAffinity)
    || c.mask == p.cpusMask
    || (c.self && p.disabled > 0 && p.cpu !in c.mask)
    || c.mask * ValidMask(p, st) == {}
  }

  /** Kernel threads and migration-disabled tasks may use CPUs that are online but not active. */
  function ValidMask(p: Place, st: Setting): set<nat> {
    if st.kthread || p.disabled > 0 then st.online else st.active
  }

  function Asks(p: Place, a: nat, mask: set<nat>): Op {
    if p.cpu in mask then FitsHere(a) else Request(a, OnCpuOrWaking(p), p.disabled > 0)
  }

  /** `__set_cpus_allowed_ptr` up to the unlock; a task queued off the new mask is moved to `dest`. */
  function SetCpusAllowed(w: World, a: nat, c: Change, st: Setting, dest: nat): World {
    var p := w.place;
    if Refused(p, c, st) then w
    else
      var moves := p.cpu !in c.mask && p.status.Queued? && p.disabled == 0;
      w.(sync := Next(w.sync, Asks(p, a, c.mask)), target := w.target[a := Some(p.cpu)],
         place := p.(cpusMask := c.mask, cpu := if moves then dest else p.cpu))
  }

  /** `migrate_enable`; only a task that was switched out in between has its pointer to reset. */
  function Enabling(w: World, a: nat): World {
    var p := w.place;
    if p.disabled > 1 then w.(place := p.(disabled := p.disabled - 1))
    else if p.cpusPtr.None? then w.(place := p.(disabled := 0))
    else w.(sync := Next(w.sync, if p.cpu in p.cpusMask then FitsHere(a) else Enable(a)),
            target := w.target[a := Some(p.cpu)], place := p.(cpusPtr := None, disabled := 0))
  }

  /** `migrate_enable` off the mask, with no record pending. */
  predicate EnableWarns(w: World) {
    && w.place.disabled == 1 && w.place.cpusPtr.Some?
    && w.place.cpu !in w.place.cpusMask && w.sync.installed.None?
  }

  function Found(w: World, r: nat): Finding {
    Find(r in w.workCpu && w.workCpu[r] == w.place.cpu, w.place.disabled > 0, MayUse(w.place, w.place.cpu))
  }

  /** `migration_cpu_stop`: a task that it may move and that is queued off its mask goes to `dest`. */
  function Stopping(w: World, a: nat, r: nat, dest: nat): World {
    var p := w.place;
    var moves := Found(w, r).Movable? && p.cpu !in p.cpusMask && p.status.Queued?;
    w.(sync := Next(w.sync, Stop(a, r, Found(w, r))), target := w.target[a := None],
       place := p.(cpu := if moves then dest else p.cpu))
  }

  function QueueTo(w: World, a: nat): World {
    if a in w.sync.agents && w.sync.agents[a].OwesWork? then
      var cpu := if a in w.target && w.target[a].Some? then w.target[a].value else w.place.cpu;
      w.(sync := Next(w.sync, QueueWork(a)), workCpu := w.workCpu[w.sync.agents[a].record := cpu])
    else w
  }

  function NextWorld(w: World, e: Event): World {
    var p := w.place;
    match e
    case SetMask(a, c, st, dest) => SetCpusAllowed(w, a, c, st, dest)
    case MigrateDisable => w.(place := p.(disabled := p.disabled + 1))
    case MigrateEnable(a) => Enabling(w, a)
    case SwitchIn => w.(place := p.(status := Running))
    case SwitchOut(sleeps) =>
      w.(place := p.(status := if sleeps then Leaving else Queued,
                     cpusPtr := if p.disabled > 0 && p.cpusPtr.None? then Some(p.cpu) else p.cpusPtr))
    case Left => w.(place := p.(status := Blocked))
    case WakeInPlace => w.(place := p.(status := Waking))
    case ChooseCpu(cpu) => w.(place := p.(status := Waking, cpu := cpu))
    case Enqueue => w.(place := p.(status := Queued))
    case Balance(cpu) => w.(place := p.(cpu := cpu))
    case StopperRun(a, r, dest) => Stopping(w, a, r, dest)
    case HandOff(op) => if op.QueueWork? then QueueTo(w, op.agent) else w.(sync := Next(w.sync, op))
  }

  /**
    When an event can happen. A wake-up that selects a CPU and the load balancer go by the pointer.
    While the task leaves its CPU that run queue is locked; a stopper that finds the task on its own
    CPU runs there itself, so the task does not. It may well be waking: wake-ups are flushed before
    the task is locked, and another may come in between.
   */
  ghost predicate Can(w: World, e: Event) {
    var p := w.place;
    match e
    case SetMask(a, c, st, dest) =>
      && a !in w.sync.agents && (c.self ==> p.status.Running?) && !p.status.Leaving?
      && (c.mask * ValidMask(p, st) != {} ==> dest in c.mask * ValidMask(p, st))
    case MigrateDisable => p.status.Running?
    case MigrateEnable(a) => a !in w.sync.agents && p.status.Running? && p.disabled > 0
    case SwitchIn => p.status.Queued?
    case SwitchOut(_) => p.status.Running?
    case Left => p.status.Leaving?
    case WakeInPlace => p.status.Leaving?
    case ChooseCpu(cpu) => p.status.Blocked? && MayUse(p, cpu)
    case Enqueue => p.status.Waking?
    case Balance(cpu) => p.status.Queued? && MayUse(p, cpu)
    case StopperRun(a, r, dest) =>
      && a !in w.sync.agents && r in w.sync.queued && dest in p.cpusMask
      && r in w.workCpu && (w.workCpu[r] == p.cpu ==> !p.status.Running? && !p.status.Leaving?)
    case HandOff(op) =>
      && (op.QueueWork? || op.Complete? || op.Wake? || op.Drop? || op.Return?)
      && Enabled(w.sync, op)
  }

  // ----- every event is at most one step of the hand-off -----

  /** The hand-off step inside an event, if there is one. */
  function StepOf(w: World, e: Event): Option<Op> {
    var p := w.place;
    match e
    case SetMask(a, c, st, _) => if Refused(p, c, st) then None else Some(Asks(p, a, c.mask))
    case MigrateEnable(a) =>
      if p.disabled > 1 || p.cpusPtr.None? then None
      else Some(if p.cpu in p.cpusMask then FitsHere(a) else Enable(a))
    case StopperRun(a, r, _) => Some(Stop(a, r, Found(w, r)))
    case HandOff(op) => Some(op)
    case _ => None
  }

  lemma EventIsStep(w: World, e: Event)
    requires Can(w, e)
    ensures match StepOf(w, e)
            case None => NextWorld(w, e).sync == w.sync
            case Some(op) => Enabled(w.sync, op) && NextWorld(w, e).sync == Next(w.sync, op)
  {
    hide FitHere, Affinity.Ask, EnableAstray, Queue, RunStop, CompleteAll, WakeUp, DropRef;
  }

  ghost predicate PlaceOk(p: Place) {
    && p.cpusMask != {}
    && (p.cpusPtr.Some? ==> p.disabled > 0 && p.cpusPtr.value == p.cpu)
    && (p.disabled > 0 && !p.status.Running? ==> p.cpusPtr.Some?)
  }

  ghost predicate WorldInv(w: World) {
    Inv(w.sync) && PlaceOk(w.place)
  }

  lemma NextWorldKeepsInv(w: World, e: Event)
    requires WorldInv(w) && Can(w, e)
    ensures WorldInv(NextWorld(w, e))
  {
    EventIsStep(w, e);
    var step := StepOf(w, e);
    if step.Some? {
      NextKeepsInv(w.sync, step.value);
    }
    hide Inv, Next, Enabled;
    assert Inv(NextWorld(w, e).sync);
    PlaceStaysOk(w, e);
  }

  lemma PlaceStaysOk(w: World, e: Event)
    requires PlaceOk(w.place) && Can(w, e)
    ensures PlaceOk(NextWorld(w, e).place)
  {
    hide Inv, Next, Enabled;
  }

  // ----- when migrate_enable finds no record -----

  /** The task is bound to run on a CPU off its mask. */
  ghost predicate Astray(p: Place) {
    p.cpu !in p.cpusMask && (!p.status.Blocked? || p.cpusPtr.Some?)
  }

  /**
    A stopper run on another CPU settles the record because the task's pointer, narrowed to the CPU
    that it is on, allows that CPU, although the mask does not.
   */
  ghost predicate LetsOffElsewhere(w: World, e: Event) {
    && e.StopperRun? && Found(w, e.record).MovedAllowed?
    && w.place.cpusPtr.Some? && w.place.cpu !in w.place.cpusMask
  }

  /** A stopper run settles the record while the task wakes up on its CPU off the mask, too late to be moved. */
  ghost predicate LetsOffWaking(w: World, e: Event) {
    && e.StopperRun? && Found(w, e.record).Movable?
    && w.place.status.Waking? && w.place.cpu !in w.place.cpusMask
  }

  ghost predicate LetsOff(w: World, e: Event) {
    LetsOffElsewhere(w, e) || LetsOffWaking(w, e)
  }

  ghost predicate SamePlace(p: Place, q: Place) {
    p.cpu == q.cpu && p.cpusMask == q.cpusMask
  }

  /** `let`: let off before, and neither moved nor given a new mask since. */
  ghost predicate Explained(w: World, let: bool) {
    && (let ==> w.sync.installed.None? && w.place.cpu !in w.place.cpusMask)
    && (Astray(w.place) && w.sync.installed.None? ==> let)
  }

  ghost function StillLet(w: World, e: Event, let: bool): bool {
    (let && SamePlace(w.place, NextWorld(w, e).place)) || LetsOff(w, e)
  }

  /** What the steps do to the installed record. */
  lemma Installs(s: State, op: Op)
    requires Inv(s) && Enabled(s, op)
    ensures op.FitsHere? && s.installed.None? ==> Next(s, op).installed.None?
    ensures op.Request? && (op.running || op.disabled) ==> Next(s, op).installed.Some?
    ensures op.Stop? && (op.finding.MovedAllowed? || op.finding.Movable?) ==> Next(s, op).installed.None?
    ensures op.Stop? && s.installed.None? ==> Next(s, op).installed.None?
    ensures op.Stop? && (op.finding.Pinned? || op.finding.MovedAstray?) ==> Next(s, op).installed == s.installed
    ensures op.Enable? || op.QueueWork? || op.Complete? || op.Wake? || op.Drop? || op.Return? ==>
      Next(s, op).installed == s.installed
  {
    hide Inv;
    if op.Stop? {
      StoppedIsInstalled(s, op.record);
    }
  }

  /** One event keeps the explanation. */
  lemma LetOffStep(w: World, e: Event, let: bool)
    requires WorldInv(w) && Can(w, e) && Explained(w, let)
    ensures Explained(NextWorld(w, e), StillLet(w, e, let))
  {
    hide Inv, Next, Enabled, Explained, StillLet, MayUse;
    EventIsStep(w, e);
    var step := StepOf(w, e);
    if step.Some? {
      Installs(w.sync, step.value);
    }
    if e.SetMask? {
      LetOffSetMask(w, e, let);
    } else if e.StopperRun? {
      LetOffStopper(w, e, let);
    } else {
      LetOffOther(w, e, let);
    }
  }

  lemma LetOffSetMask(w: World, e: Event, let: bool)
    requires PlaceOk(w.place) && Can(w, e) && e.SetMask? && Explained(w, let)
    requires var op := Asks(w.place, e.agent, e.change.mask);
      !Refused(w.place, e.change, e.setting) && op.Request? && (op.running || op.disabled) ==> Next(w.sync, op).installed.Some?
    ensures Explained(NextWorld(w, e), StillLet(w, e, let))
  {
    hide Next, Enabled;
  }

  lemma LetOffStopper(w: World, e: Event, let: bool)
    requires PlaceOk(w.place) && Can(w, e) && e.StopperRun? && Explained(w, let)
    requires var s', f := NextWorld(w, e).sync, Found(w, e.record);
      && (f.MovedAllowed? || f.Movable? || w.sync.installed.None? ==> s'.installed.None?)
      && (f.Pinned? || f.MovedAstray? ==> s'.installed == w.sync.installed)
    ensures Explained(NextWorld(w, e), StillLet(w, e, let))
  {
    hide Next, Enabled;
  }

  lemma LetOffOther(w: World, e: Event, let: bool)
    requires PlaceOk(w.place) && Can(w, e) && !e.SetMask? && !e.StopperRun? && Explained(w, let)
    requires var s' := NextWorld(w, e).sync;
      s'.installed == w.sync.installed || (w.place.cpu in w.place.cpusMask && e.MigrateEnable?)
    ensures Explained(NextWorld(w, e), StillLet(w, e, let))
  {
    hide Next, Enabled;
  }

  ghost predicate IsHistory(es: seq<Event>, ws: seq<World>) {
    && |ws| == |es| + 1
    && ws[0].sync == Init() && PlaceOk(ws[0].place) && ws[0].place.cpu in ws[0].place.cpusMask
    && forall i | 0 <= i < |es| :: Can(ws[i], es[i]) && ws[i + 1] == NextWorld(ws[i], es[i])
  }

  /** Some stopper run has let the task off, and it has neither moved nor got a new mask since. */
  ghost predicate LetOff(es: seq<Event>, ws: seq<World>, i: nat)
    requires i <= |es| < |ws|
  {
    exists j | 0 <= j < i :: LetsOff(ws[j], es[j]) && forall m | j < m <= i :: SamePlace(ws[j].place, ws[m].place)
  }

  lemma LetOffGrows(es: seq<Event>, ws: seq<World>, i: nat)
    requires i < |es| < |ws| && (LetsOff(ws[i], es[i]) ==> SamePlace(ws[i].place, ws[i + 1].place))
    ensures LetOff(es, ws, i + 1) <==> (LetOff(es, ws, i) && SamePlace(ws[i].place, ws[i + 1].place)) || LetsOff(ws[i], es[i])
  {
    if LetOff(es, ws, i + 1) && !LetsOff(ws[i], es[i]) {
      var j :| 0 <= j < i + 1 && LetsOff(ws[j], es[j]) && forall m | j < m <= i + 1 :: SamePlace(ws[j].place, ws[m].place);
      assert SamePlace(ws[j].place, ws[i + 1].place) && SamePlace(ws[j].place, ws[i].place);
    }
    if LetOff(es, ws, i) && SamePlace(ws[i].place, ws[i + 1].place) {
      var j :| 0 <= j < i && LetsOff(ws[j], es[j]) && forall m | j < m <= i :: SamePlace(ws[j].place, ws[m].place);
      assert SamePlace(ws[j].place, ws[i].place);
    }
  }

  lemma LetOffNever(es: seq<Event>, ws: seq<World>)
    requires |ws| == |es| + 1
    ensures !LetOff(es, ws, 0)
  {
  }

  lemma InitIsSafe()
    ensures Inv(Init())
  {
  }

  lemma {:induction false} HistoryKeeps(es: seq<Event>, ws: seq<World>, i: nat)
    requires IsHistory(es, ws) && i <= |es|
    ensures WorldInv(ws[i]) && Explained(ws[i], LetOff(es, ws, i))
    decreases i
  {
    hide Inv, NextWorld, Can, LetOff, PlaceOk, LetsOff;
    if i == 0 {
      InitIsSafe();
      LetOffNever(es, ws);
    } else {
      HistoryKeeps(es, ws, i - 1);
      var w, e := ws[i - 1], es[i - 1];
      NextWorldKeepsInv(w, e);
      LetOffStep(w, e, LetOff(es, ws, i - 1));
      LetsOffInPlace(w, e);
      hide Explained, WorldInv;
      LetOffGrows(es, ws, i - 1);
    }
  }

  /** A stopper run that lets the task off leaves it where it is. */
  lemma LetsOffInPlace(w: World, e: Event)
    ensures LetsOff(w, e) ==> SamePlace(w.place, NextWorld(w, e).place)
  {
    hide Next;
  }

  /**
    `migrate_enable` warns that no record is pending exactly when a stopper run has let the task
    off on a CPU that its mask excludes: from another CPU, by the narrowed pointer, or while it woke up.
   */
  lemma WarnsExactlyWhenLetOff(es: seq<Event>, ws: seq<World>, i: nat)
    requires IsHistory(es, ws) && i < |es| && es[i].MigrateEnable?
    ensures EnableWarns(ws[i]) <==> ws[i].place.disabled == 1 && ws[i].place.cpusPtr.Some? && LetOff(es, ws, i)
  {
    HistoryKeeps(es, ws, i);
  }

  /** The hand-off is safe whatever the masks do: neither of its other warnings fires. */
  lemma HandOffIsSafe(es: seq<Event>, ws: seq<World>, i: nat)
    requires IsHistory(es, ws) && i < |es|
    ensures Inv(ws[i].sync)
    ensures var step := StepOf(ws[i], es[i]); step.Some? ==> !Warns(ws[i].sync, step.value)
  {
    HistoryKeeps(es, ws, i);
    EventIsStep(ws[i], es[i]);
    var step := StepOf(ws[i], es[i]);
    if step.Some? {
      NeverWarns(ws[i].sync, step.value);
    }
  }

  // ----- nobody waits for a record that is out of sight -----

  /** A record is installed that no stop work refers to. */
  ghost predicate Idle(s: State) {
    s.installed.Some? && !StopPending(s, s.installed.value)
  }

  /** Such a record is left to the outermost `migrate_enable`, whose pointer test will come out right. */
  ghost predicate Watched(w: World) {
    Idle(w.sync) ==> w.place.disabled > 0 && w.place.cpusPtr.Some?
  }

  lemma IdleAfter(s: State, op: Op)
    requires Inv(s) && Enabled(s, op)
    ensures Idle(Next(s, op)) ==>
      (op.Request? && op.disabled && !op.running) || (op.Stop? && op.finding.Pinned?)
      || (Idle(s) && !op.FitsHere? && !op.Request? && !op.Enable? && (op.Stop? ==> op.finding.MovedAstray?))
  {
    hide Inv;
    if op.Stop? {
      StoppedIsInstalled(s, op.record);
    }
    InstalledIsRecord(s);
  }

  lemma StoppedIsInstalled(s: State, r: nat)
    requires Inv(s) && r in s.queued
    ensures r in s.records && StopPending(s, r) && s.installed == Some(r)
  {
    assert RecordOk(s, r);
  }

  lemma InstalledIsRecord(s: State)
    requires Inv(s)
    ensures s.installed.Some? ==> s.installed.value in s.records
  {
  }

  lemma WatchedStep(w: World, e: Event)
    requires WorldInv(w) && Can(w, e) && Watched(w)
    ensures Watched(NextWorld(w, e))
  {
    hide Next, Enabled, Inv, Idle, Found, MayUse;
    EventIsStep(w, e);
    var step := StepOf(w, e);
    if step.Some? {
      IdleAfter(w.sync, step.value);
    }
    WatchedPlace(w, e, Idle(NextWorld(w, e).sync));
  }

  /** What the place has to do with it: only a task with a narrowed pointer is passed over. */
  lemma WatchedPlace(w: World, e: Event, idle: bool)
    requires PlaceOk(w.place) && Can(w, e) && Watched(w)
    requires idle ==> match StepOf(w, e)
      case None => Idle(w.sync)
      case Some(op) =>
        || (op.Request? && op.disabled && !op.running) || (op.Stop? && op.finding.Pinned?)
        || (Idle(w.sync) && !op.FitsHere? && !op.Request? && !op.Enable? && (op.Stop? ==> op.finding.MovedAstray?))
    ensures var p := NextWorld(w, e).place; idle ==> p.disabled > 0 && p.cpusPtr.Some?
  {
    hide Next, Enabled, Inv, Idle;
  }

  lemma NothingIdle()
    ensures !Idle(Init())
  {
  }

  lemma {:induction false} HistoryWatched(es: seq<Event>, ws: seq<World>, i: nat)
    requires IsHistory(es, ws) && i <= |es|
    ensures WorldInv(ws[i]) && Watched(ws[i])
    decreases i
  {
    hide WorldInv, Can, NextWorld, Idle, PlaceOk;
    HistoryKeeps(es, ws, i);
    if i == 0 {
      NothingIdle();
    } else {
      HistoryWatched(es, ws, i - 1);
      WatchedStep(ws[i - 1], es[i - 1]);
    }
  }

  /**
    No waiter is forgotten: its record is completed, or some agent owes its completion, or it is the
    installed one and either has exactly one stop work in flight or is left to `migrate_enable`.
   */
  lemma WaiterIsWatched(es: seq<Event>, ws: seq<World>, i: nat, a: nat)
    requires IsHistory(es, ws) && i <= |es| && a in ws[i].sync.agents && ws[i].sync.agents[a].Waiting?
    ensures var w := ws[i]; var s := w.sync; var r := s.agents[a].record;
      && r in s.records
      && (|| s.records[r].done
          || (exists b :: b in s.agents && s.agents[b].OwesCompletion? && s.agents[b].record == r)
          || (s.installed == Some(r) && InFlight(s, r) == 1)
          || (s.installed == Some(r) && w.place.disabled > 0 && w.place.cpusPtr.Some?))
  {
    HistoryWatched(es, ws, i);
    var s := ws[i].sync;
    WaiterOfState(s, a);
    assert RecordOk(s, s.agents[a].record);
    hide Inv, Count;
  }

  /** That `migrate_enable` takes the record on: it owes its completion or its stop work. */
  lemma EnableTakesOn(es: seq<Event>, ws: seq<World>, i: nat)
    requires IsHistory(es, ws) && i < |es| && es[i].MigrateEnable? && ws[i].place.disabled == 1 && Idle(ws[i].sync)
    ensures var s', a := ws[i + 1].sync, es[i].agent;
      && a in s'.agents && (s'.agents[a].OwesCompletion? || s'.agents[a].OwesWork?)
      && s'.agents[a].record == ws[i].sync.installed.value
  {
    hide Inv, PlaceOk, Can;
    HistoryWatched(es, ws, i);
    EnableRecord(ws[i], es[i].agent);
  }

  lemma EnableRecord(w: World, a: nat)
    requires Watched(w) && w.place.disabled == 1 && Idle(w.sync)
    ensures var s' := Enabling(w, a).sync;
      && a in s'.agents && (s'.agents[a].OwesCompletion? || s'.agents[a].OwesWork?)
      && s'.agents[a].record == w.sync.installed.value
  {
  }

  /** Every step outside the locks is taken that can be. */
  ghost predicate Quiet(s: State) {
    && s.queued == multiset{}
    && forall op: Op | op.QueueWork? || op.Complete? || op.Wake? || op.Drop? || op.Return? :: !Enabled(s, op)
  }

  /** Agents in a quiet state wait, for a completion or for the references to their own record. */
  lemma QuietAgents(s: State, a: nat)
    requires Inv(s) && Quiet(s) && a in s.agents
    ensures s.agents[a].Waiting? || s.agents[a].Draining? || s.agents[a].Gone?
    ensures s.agents[a].Waiting? ==> s.agents[a].record in s.records && !s.records[s.agents[a].record].done
    ensures s.agents[a].Draining? ==> a in s.records && s.records[a].refs > 0
  {
    assert AgentOk(s, a);
    assert !Enabled(s, QueueWork(a)) && !Enabled(s, Complete(a)) && !Enabled(s, Wake(a)) && !Enabled(s, Drop(a)) && !Enabled(s, Return(a));
    if s.agents[a].Draining? {
      assert RecordOk(s, a);
    }
  }

  /** No stop work is in flight in a quiet state. */
  lemma QuietWorks(s: State, r: nat)
    requires Inv(s) && Quiet(s)
    ensures InFlight(s, r) == 0
  {
    forall a | a in s.agents ensures !WorksOn(s.agents[a], r) {
      QuietAgents(s, a);
    }
    assert Where(s.agents, Works(r)) == {};
  }

  /** A record with references has an agent that holds one. */
  lemma SomeHolder(s: State, r: nat) returns (a: nat)
    requires Inv(s) && r in s.records && s.records[r].refs > 0
    ensures a in s.agents && HoldsOn(s.agents[a], r)
  {
    assert RecordOk(s, r);
    assert Where(s.agents, Holds(r)) != {};
    a :| a in Where(s.agents, Holds(r));
  }

  /**
    There is no deadlock: once the task has left its migration-disabled regions, when no stop work is
    queued and nothing is left to do, every caller has returned.
   */
  lemma NoDeadlock(es: seq<Event>, ws: seq<World>, i: nat, a: nat)
    requires IsHistory(es, ws) && i <= |es| && ws[i].place.disabled == 0 && Quiet(ws[i].sync) && a in ws[i].sync.agents
    ensures ws[i].sync.agents[a].Gone?
  {
    var s := ws[i].sync;
    HistoryWatched(es, ws, i);
    NobodyWaits(es, ws, i, a);
    QuietAgents(s, a);
    if s.agents[a].Draining? {
      var b := SomeHolder(s, a);
      QuietAgents(s, b);
      NobodyWaits(es, ws, i, b);
    }
  }

  lemma NobodyWaits(es: seq<Event>, ws: seq<World>, i: nat, a: nat)
    requires IsHistory(es, ws) && i <= |es| && ws[i].place.disabled == 0 && Quiet(ws[i].sync) && a in ws[i].sync.agents
    ensures !ws[i].sync.agents[a].Waiting?
  {
    var s := ws[i].sync;
    HistoryWatched(es, ws, i);
    if s.agents[a].Waiting? {
      var r := s.agents[a].record;
      WaiterIsWatched(es, ws, i, a);
      QuietAgents(s, a);
      QuietWorks(s, r);
      if b :| b in s.agents && s.agents[b].OwesCompletion? && s.agents[b].record == r {
        QuietAgents(s, b);
      }
    }
  }

  // ----- what a history adds up to -----

  /** A request that is neither barred nor without effect. */
  predicate Accepted(p: Place, e: Event) {
    && e.SetMask?
    && var valid := if e.setting.kthread || p.disabled > 0 then e.setting.online else e.setting.active;
      && e.change.mask != p.cpusMask && e.change.mask * valid != {}
      && !(e.change.check && e.setting.noSetAffinity)
      && !(e.change.self && p.disabled > 0 && p.cpu !in e.change.mask)
  }

  lemma MaskStep(w: World, e: Event)
    ensures NextWorld(w, e).place.cpusMask == if Accepted(w.place, e) then e.change.mask else w.place.cpusMask
  {
    hide Next;
  }

  /** The task has the mask of the last request that was accepted, whole, and its first one until then. */
  lemma {:induction false} MaskIsLastAccepted(es: seq<Event>, ws: seq<World>, j: nat, i: nat)
    requires IsHistory(es, ws) && j <= i <= |es|
    requires forall m | j <= m < i :: !Accepted(ws[m].place, es[m])
    ensures ws[i].place.cpusMask == ws[j].place.cpusMask
    ensures j > 0 && Accepted(ws[j - 1].place, es[j - 1]) ==> ws[i].place.cpusMask == es[j - 1].change.mask
    decreases i
  {
    hide Accepted, NextWorld, Can;
    if i > j {
      MaskIsLastAccepted(es, ws, j, i - 1);
      MaskStep(ws[i - 1], es[i - 1]);
    } else if j > 0 {
      MaskStep(ws[j - 1], es[j - 1]);
    }
  }

  /** How often migration was disabled less how often it was enabled. */
  function Depth(es: seq<Event>, i: nat): int
    requires i <= |es|
  {
    if i == 0 then 0
    else Depth(es, i - 1) + (if es[i - 1].MigrateDisable? then 1 else if es[i - 1].MigrateEnable? then -1 else 0)
  }

  lemma DepthStep(w: World, e: Event)
    requires Can(w, e)
    ensures NextWorld(w, e).place.disabled == w.place.disabled
      + (if e.MigrateDisable? then 1 else if e.MigrateEnable? then -1 else 0)
  {
    hide Next, Enabled;
  }

  /** migrate_disable nests. */
  lemma {:induction false} DisabledIsDepth(es: seq<Event>, ws: seq<World>, i: nat)
    requires IsHistory(es, ws) && i <= |es|
    ensures ws[i].place.disabled == ws[0].place.disabled + Depth(es, i)
    decreases i
  {
    hide NextWorld, Can;
    if i > 0 {
      DisabledIsDepth(es, ws, i - 1);
      DepthStep(ws[i - 1], es[i - 1]);
    }
  }

  /**
    A task with migration disabled stays where it is, as does one on its CPU or leaving it; otherwise
    it only ever moves to a CPU of its mask.
   */
  lemma DisabledStaysPut(es: seq<Event>, ws: seq<World>, i: nat)
    requires IsHistory(es, ws) && i < |es| && ws[i + 1].place.cpu != ws[i].place.cpu
    ensures ws[i].place.disabled == 0 && (ws[i].place.status.Queued? || ws[i].place.status.Blocked?)
    ensures ws[i + 1].place.cpu in ws[i + 1].place.cpusMask
  {
    HistoryKeeps(es, ws, i);
    hide NextWorld, Can, Inv;
    MoveStep(ws[i], es[i]);
  }

  lemma MoveStep(w: World, e: Event)
    requires Can(w, e) && PlaceOk(w.place)
    ensures var p, p' := w.place, NextWorld(w, e).place;
      p'.cpu != p.cpu ==> p.disabled == 0 && (p.status.Queued? || p.status.Blocked?) && p'.cpu in p'.cpusMask
  {
    hide Next, Enabled;
  }

  /** A task that is queued and free to migrate is moved at once when its new mask excludes its CPU. */
  lemma QueuedIsMoved(es: seq<Event>, ws: seq<World>, i: nat)
    requires IsHistory(es, ws) && i < |es| && Accepted(ws[i].place, es[i])
    requires ws[i].place.status.Queued? && ws[i].place.disabled == 0
    ensures ws[i + 1].place.cpu in es[i].change.mask
    ensures ws[i].place.cpu in es[i].change.mask ==> ws[i + 1].place.cpu == ws[i].place.cpu
  {
    hide Next, Enabled;
  }

  /** The pointer is narrowed, to the task's CPU, from the first switch out of a migration-disabled region to its end. */
  lemma {:induction false} NarrowedBySwitch(es: seq<Event>, ws: seq<World>, j: nat, i: nat)
    requires IsHistory(es, ws) && j <= i <= |es| && (forall m | j <= m <= i :: ws[m].place.disabled > 0)
    requires j == 0 || ws[j - 1].place.disabled == 0
    ensures ws[i].place.cpusPtr.Some? <==> (j == 0 && ws[0].place.cpusPtr.Some?) || exists m | j <= m < i :: es[m].SwitchOut?
    ensures ws[i].place.cpusPtr.Some? ==> ws[i].place.cpusPtr.value == ws[i].place.cpu
    decreases i
  {
    hide NextWorld, Can, Inv;
    HistoryKeeps(es, ws, i);
    if i > j {
      NarrowedBySwitch(es, ws, j, i - 1);
      HistoryKeeps(es, ws, i - 1);
      NarrowStep(ws[i - 1], es[i - 1]);
    } else if j > 0 {
      HistoryKeeps(es, ws, j - 1);
      NarrowStep(ws[j - 1], es[j - 1]);
    }
  }

  lemma NarrowStep(w: World, e: Event)
    requires Can(w, e) && PlaceOk(w.place) && NextWorld(w, e).place.disabled > 0
    ensures NextWorld(w, e).place.cpusPtr.Some? <==> w.place.cpusPtr.Some? || (w.place.disabled > 0 && e.SwitchOut?)
  {
    hide Next, Enabled;
  }

  /** The agent whose section under the locks an event is. */
  function SectionOf(e: Event): Option<nat> {
    match e
    case SetMask(a, _, _, _) => Some(a)
    case MigrateEnable(a) => Some(a)
    case StopperRun(a, _, _) => Some(a)
    case _ => None
  }

  /** Agents stay known, and what one has noted stays. */
  lemma NotedStays(w: World, e: Event, a: nat)
    requires Can(w, e) && a in w.sync.agents
    ensures a in NextWorld(w, e).sync.agents
    ensures a in NextWorld(w, e).target <==> a in w.target
    ensures a in w.target ==> NextWorld(w, e).target[a] == w.target[a]
  {
    hide Enabled, Next, Found, Refused, Asks;
    EventIsStep(w, e);
    var step := StepOf(w, e);
    if step.Some? {
      AgentsStay(w.sync, step.value, a);
    }
  }

  lemma AgentsStay(s: State, op: Op, a: nat)
    requires a in s.agents
    ensures a in Next(s, op).agents
  {
  }

  lemma {:induction false} NotedIsKept(es: seq<Event>, ws: seq<World>, j: nat, i: nat, a: nat)
    requires IsHistory(es, ws) && j <= i <= |es| && a in ws[j].sync.agents
    ensures a in ws[i].sync.agents && (a in ws[i].target <==> a in ws[j].target)
    ensures a in ws[j].target ==> ws[i].target[a] == ws[j].target[a]
    decreases i
  {
    hide NextWorld, Can;
    if i > j {
      NotedIsKept(es, ws, j, i - 1, a);
      NotedStays(ws[i - 1], es[i - 1], a);
    }
  }

  lemma Notes(w: World, e: Event, a: nat)
    requires Can(w, e) && SectionOf(e) == Some(a) && a in NextWorld(w, e).sync.agents
    ensures var t := NextWorld(w, e).target;
      a in t && t[a] == if e.StopperRun? then None else Some(w.place.cpu)
  {
    hide Next, Found;
  }

  /**
    The stop work of a request or of `migrate_enable` goes to the CPU that the task was on under the
    locks; a stopper run that chases the task queues it to the CPU that the task is on when it does so.
   */
  lemma StopWorkGoesTo(es: seq<Event>, ws: seq<World>, j: nat, i: nat, a: nat)
    requires IsHistory(es, ws) && j < i < |es| && SectionOf(es[j]) == Some(a) && a in ws[j + 1].sync.agents
    requires es[i] == HandOff(QueueWork(a))
    ensures ws[i + 1].workCpu
         == ws[i].workCpu[ws[i].sync.agents[a].record := if es[j].StopperRun? then ws[i].place.cpu else ws[j].place.cpu]
  {
    assert Can(ws[i], es[i]) && a in ws[i].sync.agents;
    Notes(ws[j], es[j], a);
    NotedIsKept(es, ws, j + 1, i, a);
    hide Next;
  }

  // ----- it can happen -----

  /** A machine with these two CPUs, and an ordinary task. */
  function Two(c: nat, d: nat): Setting {
    Setting({c, d}, {c, d}, false, false)
  }

  /**
    The task runs on CPU `c` when caller 1 confines it to `d`; before the stopper of `c` gets to run
    it is balanced to `d`, disables migration there and is preempted; caller 2 confines it to `c`.
   */
  function SceneEvent(c: nat, d: nat, k: nat): Event {
    if k == 0 then SetMask(1, Change({d}, false, false), Two(c, d), d)
    else if k == 1 then HandOff(QueueWork(1))
    else if k == 2 then SwitchOut(false)
    else if k == 3 then Balance(d)
    else if k == 4 then SwitchIn
    else if k == 5 then MigrateDisable
    else if k == 6 then SwitchOut(false)
    else if k == 7 then SetMask(2, Change({c}, false, false), Two(c, d), c)
    else if k == 8 then StopperRun(3, 1, c)
    else if k == 9 then SwitchIn
    else MigrateEnable(4)
  }

  ghost function Scene(c: nat, d: nat, k: nat): World {
    if k == 0 then World(Init(), Place(c, {c, d}, None, 0, Running), map[], map[])
    else NextWorld(Scene(c, d, k - 1), SceneEvent(c, d, k - 1))
  }

  lemma SceneRequested(c: nat, d: nat)
    requires c != d
    ensures Can(Scene(c, d, 0), SceneEvent(c, d, 0)) && Can(Scene(c, d, 1), SceneEvent(c, d, 1))
    ensures Scene(c, d, 2)
         == World(State(Some(1), map[1 := Record(1, true, false)], map[1 := Waiting(1)], multiset{1}),
                  Place(c, {d}, None, 0, Running), map[1 := Some(c)], map[1 := c])
  {
    var s0 := Init();
    assert d in {d} * {c, d};
    assert Next(s0, Request(1, true, false))
        == State(Some(1), map[1 := Record(1, true, false)], map[1 := OwesWork(1, true)], multiset{});
    assert Scene(c, d, 1)
        == World(State(Some(1), map[1 := Record(1, true, false)], map[1 := OwesWork(1, true)], multiset{}),
                 Place(c, {d}, None, 0, Running), map[1 := Some(c)], map[]);
    assert multiset{} + multiset{1 as nat} == multiset{1};
  }

  lemma SceneMoved(c: nat, d: nat, k: nat)
    requires c != d && 2 <= k < 7
    ensures Can(Scene(c, d, k), SceneEvent(c, d, k))
    ensures Scene(c, d, 7) == Scene(c, d, 2).(place := Place(d, {d}, Some(d), 1, Queued))
  {
    SceneRequested(c, d);
    hide Next, Enabled;
    var w := Scene(c, d, 2);
    assert Scene(c, d, 3) == w.(place := Place(c, {d}, None, 0, Queued));
    assert Scene(c, d, 4) == w.(place := Place(d, {d}, None, 0, Queued));
    assert Scene(c, d, 5) == w.(place := Place(d, {d}, None, 0, Running));
    assert Scene(c, d, 6) == w.(place := Place(d, {d}, None, 1, Running));
  }

  lemma SceneConfinedAgain(c: nat, d: nat)
    requires c != d
    ensures Can(Scene(c, d, 7), SceneEvent(c, d, 7))
    ensures var w := Scene(c, d, 8);
      && w.place == Place(d, {c}, Some(d), 1, Queued) && w.workCpu == map[1 := c]
      && w.sync.agents.Keys == {1, 2} && w.sync.queued == multiset{1} && w.sync.installed == Some(1)
  {
    SceneMoved(c, d, 6);
    SceneRequested(c, d);
    var w7, w8 := Scene(c, d, 7), Scene(c, d, 8);
    assert w7.sync.agents.Keys == {1};
    assert w8.sync == Affinity.Ask(w7.sync, 2, false, true);
  }

  lemma SceneStopped(w: World, c: nat, d: nat)
    requires c != d && w.place == Place(d, {c}, Some(d), 1, Queued) && w.workCpu == map[1 := c]
    requires w.sync.agents.Keys == {1, 2} && w.sync.queued == multiset{1} && w.sync.installed == Some(1)
    ensures Can(w, StopperRun(3, 1, c))
    ensures var w' := NextWorld(w, StopperRun(3, 1, c));
      w'.place == w.place && w'.sync.installed == None && w'.sync.agents.Keys == {1, 2, 3}
  {
    assert Found(w, 1) == MovedAllowed;
  }

  lemma SceneLetOff(c: nat, d: nat, k: nat)
    requires c != d && 7 <= k < 11
    ensures Can(Scene(c, d, k), SceneEvent(c, d, k))
    ensures EnableWarns(Scene(c, d, 10))
  {
    hide SceneEvent, Scene, Found;
    SceneConfinedAgain(c, d);
    SceneEnd(c, d);
    SceneStopped(Scene(c, d, 8), c, d);
    hide Stopping, SetCpusAllowed, Enabling, QueueTo;
  }

  lemma SceneEnd(c: nat, d: nat)
    ensures SceneEvent(c, d, 8) == StopperRun(3, 1, c) && SceneEvent(c, d, 9) == SwitchIn && SceneEvent(c, d, 10) == MigrateEnable(4)
    ensures Scene(c, d, 9) == NextWorld(Scene(c, d, 8), StopperRun(3, 1, c))
    ensures Scene(c, d, 10) == NextWorld(Scene(c, d, 9), SwitchIn)
  {
    hide NextWorld;
  }

  /** On any two CPUs there is a history in which `migrate_enable` warns. */
  lemma EnableCanWarn(c: nat, d: nat) returns (es: seq<Event>, ws: seq<World>)
    requires c != d
    ensures IsHistory(es, ws) && |es| == 11 && es[10].MigrateEnable? && EnableWarns(ws[10])
  {
    hide NextWorld, Can, EnableWarns;
    es, ws := seq(11, k requires 0 <= k < 11 => SceneEvent(c, d, k)), seq(12, k requires 0 <= k < 12 => Scene(c, d, k));
    forall k | 0 <= k < 11 ensures Can(ws[k], es[k]) && ws[k + 1] == NextWorld(ws[k], es[k]) {
      if k < 2 {
        SceneRequested(c, d);
      } else if k < 7 {
        SceneMoved(c, d, k);
      } else {
        SceneLetOff(c, d, k);
      }
    }
    SceneLetOff(c, d, 10);
  }

  /**
    The task runs on CPU `c` when caller 1 confines it to `d`, and goes to sleep before the stopper of
    `c` gets to run; caller 2 confines it to `c`, where it is woken; caller 3 confines it to `d`
    before it is enqueued, and only then the stopper takes its lock.
   */
  function NapEvent(c: nat, d: nat, k: nat): Event {
    if k == 0 then SetMask(1, Change({d}, false, false), Two(c, d), d)
    else if k == 1 then HandOff(QueueWork(1))
    else if k == 2 then SwitchOut(true)
    else if k == 3 then Left
    else if k == 4 then SetMask(2, Change({c}, false, false), Two(c, d), c)
    else if k == 5 then ChooseCpu(c)
    else if k == 6 then SetMask(3, Change({d}, false, false), Two(c, d), d)
    else if k == 7 then StopperRun(4, 1, d)
    else if k == 8 then Enqueue
    else if k == 9 then SwitchIn
    else if k == 10 then MigrateDisable
    else if k == 11 then SwitchOut(false)
    else if k == 12 then SwitchIn
    else MigrateEnable(5)
  }

  ghost function Nap(c: nat, d: nat, k: nat): World {
    if k == 0 then World(Init(), Place(c, {c, d}, None, 0, Running), map[], map[])
    else NextWorld(Nap(c, d, k - 1), NapEvent(c, d, k - 1))
  }

  /** Until the task sleeps, this is the first scene. */
  lemma NapAsleep(c: nat, d: nat, k: nat)
    requires c != d && k < 4
    ensures Can(Nap(c, d, k), NapEvent(c, d, k))
    ensures Nap(c, d, 4)
         == World(State(Some(1), map[1 := Record(1, true, false)], map[1 := Waiting(1)], multiset{1}),
                  Place(c, {d}, None, 0, Blocked), map[1 := Some(c)], map[1 := c])
  {
    SceneRequested(c, d);
    hide Next, Enabled;
    assert Nap(c, d, 0) == Scene(c, d, 0);
    assert Nap(c, d, 1) == Scene(c, d, 1);
    assert Nap(c, d, 2) == Scene(c, d, 2);
    assert Nap(c, d, 3) == Scene(c, d, 2).(place := Place(c, {d}, None, 0, Leaving));
  }

  lemma NapFits(c: nat, d: nat)
    requires c != d
    ensures Can(Nap(c, d, 4), NapEvent(c, d, 4)) && Can(Nap(c, d, 5), NapEvent(c, d, 5))
    ensures var w := Nap(c, d, 6);
      && w.place == Place(c, {c}, None, 0, Waking) && w.workCpu == map[1 := c]
      && w.sync == State(Some(1), map[1 := Record(1, true, false)], map[1 := Waiting(1), 2 := Gone], multiset{1})
  {
    NapAsleep(c, d, 3);
    var w := Nap(c, d, 4);
    assert c in {c} * {c, d};
    assert FitHere(w.sync, 2) == Become(w.sync, 2, Gone);
    assert Nap(c, d, 5).place == Place(c, {c}, None, 0, Blocked);
  }

  /** A caller that joins a record with a stop work on its way just waits. */
  lemma JoinsPending(s: State, a: nat, r: nat)
    requires s.installed == Some(r) && r in s.records && s.records[r].stopPending
    ensures var s' := Next(s, Request(a, true, false));
      s'.installed == Some(r) && s'.queued == s.queued && s'.agents == s.agents[a := Waiting(r)]
  {
  }

  lemma NapJoins(c: nat, d: nat)
    requires c != d
    ensures Can(Nap(c, d, 6), NapEvent(c, d, 6))
    ensures var w := Nap(c, d, 7);
      && w.place == Place(c, {d}, None, 0, Waking) && w.workCpu == map[1 := c]
      && w.sync.installed == Some(1) && w.sync.queued == multiset{1} && w.sync.agents.Keys == {1, 2, 3}
  {
    hide Nap, Next, Stopping, Enabling, QueueTo;
    NapFits(c, d);
    NapNext(c, d, 6);
    assert d in {d} * {c, d};
    JoinsPending(Nap(c, d, 6).sync, 3, 1);
  }

  lemma NapLetOff(c: nat, d: nat)
    requires c != d
    ensures Can(Nap(c, d, 7), NapEvent(c, d, 7)) && LetsOffWaking(Nap(c, d, 7), NapEvent(c, d, 7))
    ensures var w := Nap(c, d, 8);
      && w.place == Place(c, {d}, None, 0, Waking) && w.sync.installed == None && w.sync.agents.Keys == {1, 2, 3, 4}
  {
    hide Nap;
    NapJoins(c, d);
    var w := Nap(c, d, 7);
    assert Found(w, 1) == Movable;
    assert Nap(c, d, 8) == NextWorld(w, StopperRun(4, 1, d)) by {
      NapNext(c, d, 7);
    }
  }

  lemma NapNext(c: nat, d: nat, k: nat)
    ensures Nap(c, d, k + 1) == NextWorld(Nap(c, d, k), NapEvent(c, d, k))
  {
    hide NextWorld, NapEvent;
  }

  lemma NapWakes(c: nat, d: nat)
    requires c != d
    ensures var w := Nap(c, d, 8);
      && Nap(c, d, 9) == w.(place := Place(c, {d}, None, 0, Queued))
      && Nap(c, d, 10) == w.(place := Place(c, {d}, None, 0, Running))
      && Nap(c, d, 11) == w.(place := Place(c, {d}, None, 1, Running))
      && Nap(c, d, 12) == w.(place := Place(c, {d}, Some(c), 1, Queued))
      && Nap(c, d, 13) == w.(place := Place(c, {d}, Some(c), 1, Running))
  {
    hide Nap, Can, LetsOffWaking, Next, Stopping, SetCpusAllowed, Enabling, QueueTo;
    NapLetOff(c, d);
    NapNext(c, d, 8);
    NapNext(c, d, 9);
    NapNext(c, d, 10);
    NapNext(c, d, 11);
    NapNext(c, d, 12);
  }

  lemma NapAwake(c: nat, d: nat, k: nat)
    requires c != d && 8 <= k < 14
    ensures Can(Nap(c, d, k), NapEvent(c, d, k)) && EnableWarns(Nap(c, d, 13))
  {
    hide Nap, NextWorld, LetsOffWaking, Enabled;
    NapLetOff(c, d);
    NapWakes(c, d);
  }

  /** ... and one in which it warns because of a stopper run that met the task waking up. */
  lemma EnableCanWarnAfterNap(c: nat, d: nat) returns (es: seq<Event>, ws: seq<World>)
    requires c != d
    ensures IsHistory(es, ws) && |es| == 14 && es[13].MigrateEnable? && EnableWarns(ws[13])
    ensures forall k | 0 <= k < 14 :: !LetsOffElsewhere(ws[k], es[k])
  {
    hide NextWorld, Can, EnableWarns, LetsOffWaking, Nap;
    es, ws := seq(14, k requires 0 <= k < 14 => NapEvent(c, d, k)), seq(15, k requires 0 <= k < 15 => Nap(c, d, k));
    hide LetsOffElsewhere;
    forall k | 0 <= k < 14
      ensures Can(ws[k], es[k]) && ws[k + 1] == NextWorld(ws[k], es[k]) && !LetsOffElsewhere(ws[k], es[k])
    {
      NapCan(c, d, k);
      NapNext(c, d, k);
    }
    NapAwake(c, d, 13);
    NapLetOff(c, d);
    assert Nap(c, d, 0) == World(Init(), Place(c, {c, d}, None, 0, Running), map[], map[]) by {
      NapStart(c, d);
    }
  }

  lemma NapStart(c: nat, d: nat)
    ensures Nap(c, d, 0) == World(Init(), Place(c, {c, d}, None, 0, Running), map[], map[])
  {
  }

  lemma NapCan(c: nat, d: nat, k: nat)
    requires c != d && k < 14
    ensures Can(Nap(c, d, k), NapEvent(c, d, k))
    ensures !LetsOffElsewhere(Nap(c, d, k), NapEvent(c, d, k))
  {
    hide Can, Nap, NextWorld, LetsOffWaking;
    if k < 4 {
      NapAsleep(c, d, k);
    } else if k < 6 {
      NapFits(c, d);
    } else if k == 6 {
      NapJoins(c, d);
    } else if k == 7 {
      NapLetOff(c, d);
      NapJoins(c, d);
    } else {
      NapAwake(c, d, k);
    }
  }

  // ----- the kernel's functions -----

  const EBUSY := 16

  /** A task with its masks; what the callers share sits in `task`. */
  class MaskedTask {
    const task: Task
    var cpu: nat
    var cpusMask: set<nat>
    var cpusPtr: Option<nat>
    var migrationDisabled: nat
    var status: Status
    var target: map<nat, Option<nat>>
    var workCpu: map<nat, nat>

    ghost function View(): World
      reads this, task
    {
      World(task.View(), Place(cpu, cpusMask, cpusPtr, migrationDisabled, status), target, workCpu)
    }

    constructor (cpu: nat, mask: set<nat>)
      ensures task.Valid() && fresh(task)
      ensures View() == World(Init(), Place(cpu, mask, None, 0, Running), map[], map[])
    {
      task := new Task();
      this.cpu, cpusMask, cpusPtr, migrationDisabled, status := cpu, mask, None, 0, Running;
      target, workCpu := map[], map[];
    }

    /** A mask that is accepted: it is copied, and the task is moved, or the hand-off sees to it. */
    method TakeMask(me: nat, mask: set<nat>, dest: nat)
      requires task.Valid()
      modifies this`cpusMask, this`cpu, this`target, task
      ensures task.Valid() && cpusMask == mask
      ensures cpu == (if old(cpu) !in mask && status.Queued? && migrationDisabled == 0 then dest else old(cpu))
      ensures target == old(target)[me := Some(old(cpu))]
      ensures task.View() == Next(old(task.View()),
                if old(cpu) in mask then FitsHere(me) else Request(me, status.Running? || status.Waking?, migrationDisabled > 0))
    {
      hide Next;
      cpusMask := mask;
      var running := status.Running? || status.Waking?;
      var w := task.AffineMoveTask(me, false, cpu in cpusMask, running, migrationDisabled > 0);
      target := target[me := Some(cpu)];
      if cpu !in cpusMask && !running && migrationDisabled == 0 && status.Queued? {
        cpu := dest;
      }
    }

    /**
      `__set_cpus_allowed_ptr` of a caller up to the unlock, `dest` being the CPU picked from the valid
      part of the new mask; a task that disables its own CPU with migration disabled is warned about.
     */
    method SetCpusAllowedPtr(me: nat, c: Change, st: Setting, dest: nat) returns (ret: int, warned: bool)
      requires task.Valid()
      requires var valid := ValidMask(View().place, st); c.mask * valid != {} ==> dest in c.mask * valid
      modifies this, task
      ensures task.Valid() && View() == NextWorld(old(View()), SetMask(me, c, st, dest))
      ensures ret == if c.check && st.noSetAffinity then -EINVAL
                     else if c.mask == old(cpusMask) then 0
                     else if c.self && old(migrationDisabled) > 0 && old(cpu) !in c.mask then -EBUSY
                     else if c.mask * ValidMask(old(View()).place, st) == {} then -EINVAL else 0
      ensures warned <==> ret == -EBUSY
      ensures var valid := if st.kthread || old(migrationDisabled) > 0 then st.online else st.active;
              var barred := (c.check && st.noSetAffinity) || (c.self && old(migrationDisabled) > 0 && old(cpu) !in c.mask);
              if !barred && c.mask != old(cpusMask) && c.mask * valid != {}
              then
                && cpusMask == c.mask
                && cpu == (if old(cpu) !in c.mask && old(status).Queued? && old(migrationDisabled) == 0 then dest else old(cpu))
                && target == old(target)[me := Some(old(cpu))]
                && task.View() == Next(old(task.View()),
                     if old(cpu) in c.mask then FitsHere(me)
                     else Request(me, old(status).Running? || old(status).Waking?, old(migrationDisabled) > 0))
              else
                && cpusMask == old(cpusMask) && cpu == old(cpu)
                && target == old(target) && task.View() == old(task.View())
      ensures cpusPtr == old(cpusPtr) && migrationDisabled == old(migrationDisabled)
      ensures status == old(status) && workCpu == old(workCpu)
    {
      hide Next;
      var valid := st.active;
      if st.kthread || migrationDisabled > 0 {
        valid := st.online;
      }
      if c.check && st.noSetAffinity {
        return -EINVAL, false;
      }
      if cpusMask == c.mask {
        return 0, false;
      }
      if c.self && migrationDisabled > 0 && cpu !in c.mask {
        return -EBUSY, true;
      }
      if c.mask * valid == {} {
        return -EINVAL, false;
      }
      TakeMask(me, c.mask, dest);
      return 0, false;
    }

    /** `migrate_disable_switch`: a task that is switched out with migration disabled is confined to its CPU. */
    method MigrateDisableSwitch(sleeps: bool)
      modifies this
      ensures View() == NextWorld(old(View()), SwitchOut(sleeps))
      ensures cpusPtr == if old(migrationDisabled) > 0 && old(cpusPtr).None? then Some(old(cpu)) else old(cpusPtr)
      ensures status == if sleeps then Leaving else Queued
      ensures cpu == old(cpu) && cpusMask == old(cpusMask) && migrationDisabled == old(migrationDisabled)
    {
      status := if sleeps then Leaving else Queued;
      if migrationDisabled == 0 {
        return;
      }
      if cpusPtr.Some? {
        return;
      }
      cpusPtr := Some(cpu);
    }

    method MigrateDisableTask()
      modifies this
      ensures View() == NextWorld(old(View()), MigrateDisable)
      ensures migrationDisabled == old(migrationDisabled) + 1
      ensures cpu == old(cpu) && cpusMask == old(cpusMask) && cpusPtr == old(cpusPtr) && status == old(status)
    {
      migrationDisabled := migrationDisabled + 1;
    }

    /** `migrate_enable` of the running task. */
    method MigrateEnableTask(me: nat) returns (warned: bool)
      requires task.Valid() && status.Running? && migrationDisabled > 0
      modifies this, task
      ensures task.Valid() && View() == NextWorld(old(View()), MigrateEnable(me))
      ensures warned <==> EnableWarns(old(View()))
      ensures migrationDisabled == old(migrationDisabled) - 1
      ensures cpusPtr == if old(migrationDisabled) == 1 then None else old(cpusPtr)
      ensures if old(migrationDisabled) == 1 && old(cpusPtr).Some?
              then
                && target == old(target)[me := Some(old(cpu))]
                && task.View() == Next(old(task.View()), if old(cpu) in old(cpusMask) then FitsHere(me) else Enable(me))
              else target == old(target) && task.View() == old(task.View())
      ensures warned <==>
        && old(migrationDisabled) == 1 && old(cpusPtr).Some?
        && old(cpu) !in old(cpusMask) && old(task.migrationPending).None?
      ensures cpu == old(cpu) && cpusMask == old(cpusMask) && status == old(status) && workCpu == old(workCpu)
    {
      warned := false;
      if migrationDisabled > 1 {
        migrationDisabled := migrationDisabled - 1;
        return;
      }
      if cpusPtr.Some? {
        cpusPtr := None;
        warned := task.AffineMoveTask(me, true, cpu in cpusMask, true, true);
        target := target[me := Some(cpu)];
      }
      migrationDisabled := 0;
    }

    /** `migration_cpu_stop` for record `r` on the CPU that has its work, `dest` being picked from the mask. */
    method MigrationCpuStop(me: nat, r: nat, dest: nat) returns (warned: bool)
      requires task.Valid() && r in task.queued && r in task.records && r in workCpu
      modifies this, task
      ensures task.Valid() && View() == NextWorld(old(View()), StopperRun(me, r, dest))
      ensures warned <==> Warns(old(View()).sync, Stop(me, r, Found(old(View()), r)))
      ensures var here := old(workCpu)[r] == old(cpu);
        && cpu == (if here && old(migrationDisabled) == 0 && old(cpu) !in cpusMask && status.Queued? then dest else old(cpu))
        && task.View() == Next(old(task.View()), Stop(me, r,
             if here then if old(migrationDisabled) > 0 then Pinned else Movable
             else if (old(cpusPtr).None? && old(cpu) in cpusMask) || old(cpusPtr) == Some(old(cpu)) then MovedAllowed
             else MovedAstray))
      ensures cpusMask == old(cpusMask) && cpusPtr == old(cpusPtr) && migrationDisabled == old(migrationDisabled)
      ensures status == old(status) && workCpu == old(workCpu) && target == old(target)[me := None]
    {
      hide RunStop, StopPending;
      var here := workCpu[r] == cpu;
      var allowed := if cpusPtr.None? then cpu in cpusMask else cpusPtr == Some(cpu);
      warned := task.MigrationCpuStop(me, r, here, migrationDisabled > 0, allowed);
      target := target[me := None];
      if here && migrationDisabled == 0 && cpu !in cpusMask && status.Queued? {
        cpu := dest;
      }
    }

    /** `stop_one_cpu_nowait`: the work goes to the CPU noted under the locks, or to the one that the task is on now. */
    method StopOneCpuNowait(me: nat)
      requires task.Valid() && Enabled(View().sync, QueueWork(me)) && task.agents[me].record in task.records
      modifies this, task
      ensures task.Valid() && View() == NextWorld(old(View()), HandOff(QueueWork(me)))
      ensures workCpu == old(workCpu)[old(task.agents)[me].record :=
                if me in target && target[me].Some? then target[me].value else old(cpu)]
      ensures task.View() == Next(old(task.View()), QueueWork(me))
      ensures cpu == old(cpu) && cpusMask == old(cpusMask) && cpusPtr == old(cpusPtr)
      ensures migrationDisabled == old(migrationDisabled) && status == old(status) && target == old(target)
    {
      hide Next;
      var to := if me in target && target[me].Some? then target[me].value else cpu;
      workCpu := workCpu[task.agents[me].record := to];
      task.StopOneCpuNowait(me);
    }
  }
}
