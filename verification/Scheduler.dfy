/** Scheduled backups: the scheduler's turn over one target as two steps of its thread, between which every other
    job operation may run, and what holds over all such runs whatever the clock does. */
module Scheduler {
  import opened Text
  import opened JobSpec
  import opened JobRuns
  import opened CronMatch

  datatype Target = Target(id: string, worker: string, enabled: bool, cron: Option<string>)

  /** The dispatch that a check has decided on. */
  datatype Aim = Aim(target: string, worker: string, minute: nat)

  /** A backup the scheduler dispatched. */
  datatype Fired = Fired(target: string, worker: string, job: string, minute: nat)

  /** The jobs, `_last_check`, what the scheduler thread is about to dispatch, and what it has dispatched. */
  datatype World = World(state: State, last: map<string, nat>, aim: Option<Aim>, fired: seq<Fired>)

  /** Minutes are local wall-clock minutes, which may repeat or go back; `eligible` is None when the lookup raises. */
  datatype Action =
    | Other(step: Step)
    | Check(now: nat, target: Target, global: Option<string>, eligible: Option<bool>)
    | Fire(accepted: bool, id: string, at: int)

  const BACKUP := "backup.run"

  predicate Active(j: Job) {
    j.status == Pending || j.status == InProgress
  }

  /** `has_active_backup_for_target` */
  predicate ActiveBackup(jobs: Jobs, target: string) {
    exists id | id in jobs :: jobs[id].target == Some(target) && jobs[id].command == BACKUP && Active(jobs[id])
  }

  /** `target.cron_expression or global_cron`, None when that is empty. */
  function Schedule(target: Target, global: Option<string>): Option<string> {
    if target.cron.Some? && target.cron.value != "" then target.cron
    else if global.Some? && global.value != "" then global
    else None
  }

  predicate Due(now: nat, target: Target, global: Option<string>, last: map<string, nat>) {
    && target.enabled && Schedule(target, global).Some? && CronMatches(Schedule(target, global).value, now)
    && (target.id in last ==> now - last[target.id] >= 1)
  }

  predicate Sound(w: World) {
    w.state.life.Keys == w.state.jobs.Keys
  }

  function Checked(w: World, now: nat, target: Target, global: Option<string>, eligible: Option<bool>): (w': World)
    ensures w'.state == w.state && w'.fired == w.fired
  {
    if !Due(now, target, global, w.last) || eligible.None? then w
    else if eligible.value && !ActiveBackup(w.state.jobs, target.id)
    then w.(last := w.last[target.id := now], aim := Some(Aim(target.id, target.worker, now)))
    else w.(last := w.last[target.id := now])
  }

  function FiredBy(aim: Aim, id: string): Fired {
    Fired(aim.target, aim.worker, id, aim.minute)
  }

  function FireStep(aim: Aim, id: string, at: int): Step {
    Dispatch(id, aim.worker, BACKUP, Some(aim.target), "scheduler", at)
  }

  /** A dispatch that raises leaves only the check's mark behind. */
  function Act(w: World, a: Action): (w': World)
    requires Sound(w)
    ensures Sound(w')
  {
    hide Checked, NextJobs, Observed;
    match a
    case Other(step) => w.(state := Next(w.state, step))
    case Check(now, target, global, eligible) => Checked(w, now, target, global, eligible)
    case Fire(accepted, id, at) =>
      if w.aim.None? then w
      else if !accepted then w.(aim := None)
      else w.(state := Next(w.state, FireStep(w.aim.value, id, at)), aim := None,
              fired := w.fired + [FiredBy(w.aim.value, id)])
  }

  /** One scheduler thread; new jobs have new ids. */
  ghost predicate Allowed(w: World, a: Action)
    requires Sound(w)
  {
    match a
    case Other(step) => Legal(w.state, step)
    case Check(_, _, _, _) => w.aim.None?
    case Fire(_, id, at) => w.aim.Some? ==> Legal(w.state, FireStep(w.aim.value, id, at))
  }

  function ActAll(w: World, actions: seq<Action>): (w': World)
    requires Sound(w)
    ensures Sound(w')
    decreases |actions|
  {
    hide Act;
    if actions == [] then w else ActAll(Act(w, actions[0]), actions[1..])
  }

  ghost predicate AllowedAll(w: World, actions: seq<Action>)
    requires Sound(w)
    decreases |actions|
  {
    hide Act, Allowed;
    actions != [] ==> Allowed(w, actions[0]) && AllowedAll(Act(w, actions[0]), actions[1..])
  }

  const EMPTY := World(JobRuns.START, map[], None, [])

  // The invariant

  predicate BackupFor(jobs: Jobs, f: Fired) {
    f.job in jobs && jobs[f.job].target == Some(f.target) && jobs[f.job].worker == f.worker && jobs[f.job].command == BACKUP
  }

  ghost predicate FiredExist(w: World) {
    && (forall i | 0 <= i < |w.fired| :: BackupFor(w.state.jobs, w.fired[i]))
    && (forall i, j | 0 <= i < j < |w.fired| :: w.fired[i].job != w.fired[j].job)
  }

  predicate Running(w: World, i: nat)
    requires i < |w.fired|
  {
    w.fired[i].job in w.state.jobs && Active(w.state.jobs[w.fired[i].job])
  }

  /** Of the backups fired for one target at most one is pending or in progress, and none once a new one is decided. */
  ghost predicate OneRunning(w: World) {
    && (forall i, j | 0 <= i < j < |w.fired| && w.fired[i].target == w.fired[j].target :: !(Running(w, i) && Running(w, j)))
    && (w.aim.Some? ==> forall i | 0 <= i < |w.fired| && w.fired[i].target == w.aim.value.target :: !Running(w, i))
  }

  /** The marks of a target never fall behind its dispatches, which are in order and apart. */
  ghost predicate Apart(w: World) {
    && (forall i | 0 <= i < |w.fired| :: w.fired[i].target in w.last && w.fired[i].minute <= w.last[w.fired[i].target])
    && (forall i, j | 0 <= i < j < |w.fired| && w.fired[i].target == w.fired[j].target :: w.fired[i].minute + 1 <= w.fired[j].minute)
    && (w.aim.Some? ==> w.aim.value.target in w.last && w.last[w.aim.value.target] == w.aim.value.minute)
    && (w.aim.Some? ==> forall i | 0 <= i < |w.fired| && w.fired[i].target == w.aim.value.target ::
          w.fired[i].minute + 1 <= w.aim.value.minute)
  }

  ghost predicate Holding(w: World) {
    Sound(w) && FiredExist(w) && OneRunning(w) && Apart(w)
  }

  /** What a job is to do, and for whom. */
  predicate SamePurpose(a: Job, b: Job) {
    a.target == b.target && a.command == b.command && a.worker == b.worker && a.requestedBy == b.requestedBy
  }

  /** Any job operation keeps what a job is for, and none makes an ended job active again. */
  lemma StepKeepsPurpose(s: State, step: Step, id: string)
    requires s.life.Keys == s.jobs.Keys && Legal(s, step) && id in s.jobs
    ensures id in NextJobs(s.jobs, step)
    ensures SamePurpose(NextJobs(s.jobs, step)[id], s.jobs[id])
    ensures Active(NextJobs(s.jobs, step)[id]) ==> Active(s.jobs[id])
  {
    hide NextJobs, Observed, Legal;
    PurposeKept(s, step, id);
    if !Active(s.jobs[id]) {
      TerminalStepFrozen(s, step, id);
    }
  }

  lemma ReconcilePurpose(j: Job, now: int)
    ensures SamePurpose(ReconcileOne(j, now), j)
  {
    hide OrDefault, InterruptionLine, ExpiredError, InterruptedRecovery;
  }

  lemma PurposeKept(s: State, step: Step, id: string)
    requires id in s.jobs && Legal(s, step)
    ensures id in NextJobs(s.jobs, step)
    ensures SamePurpose(NextJobs(s.jobs, step)[id], s.jobs[id])
  {
    hide ReconcileOne, LogBound.Bound, CleanAll, OrDefault, CanceledLine, CanceledRecovery, NewJob, Holds, Unexpired, ReportAccepted,
      Cancelable, Claimable;
    var j := s.jobs[id];
    match step
    case Dispatch(_, _, _, _, _, _) =>
    case Fetch(_, sweep, now, _) =>
      ReconcilePurpose(j, sweep);
      ReconcilePurpose(ReconcileOne(j, sweep), now);
    case RenewLease(_, _, _, _, _, sweep) => ReconcilePurpose(j, sweep);
    case Diagnostic(_, _, _, _, sweep) => ReconcilePurpose(j, sweep);
    case UpdateProgress(_, _, _, _, _, _, _, _, _) =>
    case UpdateStatus(_, _, _, _, _, _, _, _, _, _) =>
    case CancelJob(_, sweep, _, _) => ReconcilePurpose(j, sweep);
    case Sweep(now) => ReconcilePurpose(j, now);
  }

  lemma OtherHolds(w: World, step: Step)
    requires Holding(w) && Legal(w.state, step)
    ensures Holding(w.(state := Next(w.state, step)))
  {
    hide NextJobs, Observed, Legal, Active;
    forall i | 0 <= i < |w.fired| {
      StepKeepsPurpose(w.state, step, w.fired[i].job);
    }
    var w' := w.(state := Next(w.state, step));
    assert w'.state.jobs == NextJobs(w.state.jobs, step);
    assert forall i | 0 <= i < |w.fired| :: w'.fired[i].job in w'.state.jobs && (Running(w', i) ==> Running(w, i));
  }

  lemma CheckHolds(w: World, now: nat, target: Target, global: Option<string>, eligible: Option<bool>)
    requires Holding(w) && w.aim.None?
    ensures Holding(Checked(w, now, target, global, eligible))
  {
    hide CronMatches, Schedule;
    var w' := Checked(w, now, target, global, eligible);
    assert forall i | 0 <= i < |w.fired| :: Running(w', i) == Running(w, i);
  }

  lemma FireAppends(w: World, aim: Aim, id: string)
    requires Holding(w) && w.aim == Some(aim) && BackupFor(w.state.jobs, FiredBy(aim, id))
    requires forall i | 0 <= i < |w.fired| :: w.fired[i].job != id
    ensures Holding(w.(aim := None, fired := w.fired + [FiredBy(aim, id)]))
  {
    hide Active, BackupFor;
    var w' := w.(aim := None, fired := w.fired + [FiredBy(aim, id)]);
    assert w'.fired[..|w.fired|] == w.fired;
    assert forall i | 0 <= i < |w.fired| :: Running(w', i) == Running(w, i);
  }

  lemma FiredIsBackup(jobs: Jobs, aim: Aim, id: string, at: int)
    ensures BackupFor(NextJobs(jobs, FireStep(aim, id, at)), FiredBy(aim, id))
  {
  }

  lemma FireHolds(w: World, id: string, at: int)
    requires Holding(w) && w.aim.Some? && Legal(w.state, FireStep(w.aim.value, id, at))
    ensures Holding(Act(w, Fire(true, id, at)))
  {
    hide Observed, NextJobs, Legal, Active, OneRunning, Apart;
    var step := FireStep(w.aim.value, id, at);
    OtherHolds(w, step);
    DispatchIsNew(w.state, step);
    FiredIsBackup(w.state.jobs, w.aim.value, id, at);
    FireAppends(w.(state := Next(w.state, step)), w.aim.value, id);
  }

  lemma ActionHolds(w: World, a: Action)
    requires Holding(w) && Allowed(w, a)
    ensures Holding(Act(w, a))
  {
    hide Checked, Legal, NextJobs, Observed;
    match a
    case Other(step) => OtherHolds(w, step);
    case Check(now, target, global, eligible) => CheckHolds(w, now, target, global, eligible);
    case Fire(accepted, id, at) =>
      if accepted && w.aim.Some? {
        FireHolds(w, id, at);
      }
  }

  lemma {:induction false} RunHolds(w: World, actions: seq<Action>)
    requires Holding(w) && AllowedAll(w, actions)
    ensures Holding(ActAll(w, actions))
    decreases |actions|
  {
    hide Act, Allowed, Holding;
    if actions != [] {
      HoldingIsSound(w);
      ActionHolds(w, actions[0]);
      RunHolds(Act(w, actions[0]), actions[1..]);
    }
  }

  lemma HoldingIsSound(w: World)
    requires Holding(w)
    ensures Sound(w)
  {
  }

  /** Over any run of checks, dispatches and job operations, with any clock: two backups the scheduler dispatched for
      one target are never both pending or in progress, and their minutes are at least one apart. */
  lemma ScheduledBackupsAreApart(actions: seq<Action>, i: nat, j: nat)
    requires AllowedAll(EMPTY, actions)
    requires var w := ActAll(EMPTY, actions); i < j < |w.fired| && w.fired[i].target == w.fired[j].target
    ensures var w := ActAll(EMPTY, actions);
            && w.fired[i].job in w.state.jobs && w.fired[j].job in w.state.jobs && w.fired[i].job != w.fired[j].job
            && !(Active(w.state.jobs[w.fired[i].job]) && Active(w.state.jobs[w.fired[j].job]))
            && w.fired[i].minute + 1 <= w.fired[j].minute
  {
    hide ActAll, AllowedAll, Active;
    RunHolds(EMPTY, actions);
  }

  // The tick

  /** One target of a tick with what the tick meets on the way: the eligibility lookup (None when it raises), the job
      operations of other threads before the check and between check and dispatch, whether the dispatch is accepted, and
      the new job's id and time. */
  datatype Turn = Turn(target: Target, before: seq<Step>, eligible: Option<bool>, between: seq<Step>, accepted: bool, id: string, at: int)

  function Others(steps: seq<Step>): seq<Action> {
    if steps == [] then [] else Others(steps[..|steps| - 1]) + [Other(steps[|steps| - 1])]
  }

  function TurnActions(turn: Turn, now: nat, global: Option<string>): seq<Action> {
    Others(turn.before) + [Check(now, turn.target, global, turn.eligible)] + Others(turn.between) + [Fire(turn.accepted, turn.id, turn.at)]
  }

  function TickActions(turns: seq<Turn>, now: nat, global: Option<string>): seq<Action> {
    if turns == [] then [] else TickActions(turns[..|turns| - 1], now, global) + TurnActions(turns[|turns| - 1], now, global)
  }

  lemma {:induction false} ActAppend(w: World, a: seq<Action>, b: seq<Action>)
    requires Sound(w)
    ensures ActAll(w, a + b) == ActAll(ActAll(w, a), b)
    decreases |a|
  {
    hide Act;
    if a == [] {
      assert a + b == b;
    } else {
      assert (a + b)[1..] == a[1..] + b;
      ActAppend(Act(w, a[0]), a[1..], b);
    }
  }

  lemma ActOne(w: World, a: Action)
    requires Sound(w)
    ensures ActAll(w, [a]) == Act(w, a)
  {
    hide Act;
    assert ActAll(Act(w, a), [a][1..]) == Act(w, a);
  }

  lemma TurnInParts(w: World, turn: Turn, now: nat, global: Option<string>)
    requires Sound(w)
    ensures ActAll(w, TurnActions(turn, now, global))
         == Act(ActAll(Act(ActAll(w, Others(turn.before)), Check(now, turn.target, global, turn.eligible)), Others(turn.between)),
                Fire(turn.accepted, turn.id, turn.at))
  {
    hide Act, Others;
    var a, c, b, f := Others(turn.before), Check(now, turn.target, global, turn.eligible), Others(turn.between),
                      Fire(turn.accepted, turn.id, turn.at);
    ActAppend(w, a + [c] + b, [f]);
    ActAppend(w, a + [c], b);
    ActAppend(w, a, [c]);
    ActOne(ActAll(w, a), c);
    ActOne(ActAll(Act(ActAll(w, a), c), b), f);
  }

  /** The control plane as the scheduler and other threads use it. */
  class ControlPlane {
    var state: State

    ghost predicate Valid()
      reads this
    {
      state.life.Keys == state.jobs.Keys
    }

    constructor ()
      ensures Valid() && state == JobRuns.START
    {
      state := JobRuns.START;
    }

    method Perform(step: Step)
      requires Valid()
      modifies this
      ensures Valid() && state == Next(old(state), step)
    {
      hide NextJobs, Observed;
      state := Next(state, step);
    }

    predicate HasActiveBackup(target: string)
      reads this
    {
      ActiveBackup(state.jobs, target)
    }

    method DispatchBackup(aim: Aim, accepted: bool, id: string, at: int)
      requires Valid()
      modifies this
      ensures Valid() && state == if accepted then Next(old(state), FireStep(aim, id, at)) else old(state)
    {
      if accepted {
        Perform(FireStep(aim, id, at));
      }
    }
  }

  class SchedulerService {
    const service: ControlPlane
    var lastCheck: map<string, nat>
    ghost var fired: seq<Fired>

    ghost predicate Valid()
      reads this, service
    {
      service.Valid()
    }

    ghost function View(aim: Option<Aim>): (w: World)
      reads this, service
      requires Valid()
      ensures Sound(w)
    {
      World(service.state, lastCheck, aim, fired)
    }

    constructor (service: ControlPlane)
      requires service.Valid() && service.state == JobRuns.START
      ensures this.service == service && Valid() && View(None) == EMPTY
    {
      this.service, lastCheck, fired := service, map[], [];
    }

    /** What other threads do meanwhile. */
    method Meanwhile(steps: seq<Step>, ghost aim: Option<Aim>)
      requires Valid()
      modifies service
      ensures Valid() && View(aim) == ActAll(old(View(aim)), Others(steps))
    {
      hide NextJobs, Observed;
      ghost var start := View(aim);
      for i := 0 to |steps|
        invariant Valid() && View(aim) == ActAll(start, Others(steps[..i]))
      {
        ghost var here := View(aim);
        service.Perform(steps[i]);
        assert steps[..i + 1][..i] == steps[..i];
        ActAppend(start, Others(steps[..i]), [Other(steps[i])]);
        ActOne(here, Other(steps[i]));
      }
      assert steps[..|steps|] == steps;
    }

    /** The body of the loop up to the dispatch. */
    method CheckTarget(target: Target, now: nat, global: Option<string>, eligible: Option<bool>) returns (aim: Option<Aim>)
      requires Valid()
      modifies this`lastCheck
      ensures Valid() && View(aim) == Checked(old(View(None)), now, target, global, eligible)
    {
      hide CronMatches, ActiveBackup;
      if !target.enabled {
        return None;
      }
      var cron := Schedule(target, global);
      if cron.None? {
        return None;
      }
      if CronMatches(cron.value, now) {
        if target.id in lastCheck && now - lastCheck[target.id] < 1 {
          return None;
        }
        if eligible.None? {
          return None;
        }
        if !eligible.value {
          lastCheck := lastCheck[target.id := now];
          return None;
        }
        if service.HasActiveBackup(target.id) {
          lastCheck := lastCheck[target.id := now];
          return None;
        }
        lastCheck := lastCheck[target.id := now];
        return Some(Aim(target.id, target.worker, now));
      }
      return None;
    }

    method ConsiderTarget(turn: Turn, now: nat, global: Option<string>)
      requires Valid()
      modifies this`lastCheck, this`fired, service
      ensures Valid() && View(None) == ActAll(old(View(None)), TurnActions(turn, now, global))
    {
      hide Checked, NextJobs, Observed, Others, ActAll, TurnActions;
      TurnInParts(View(None), turn, now, global);
      Meanwhile(turn.before, None);
      var aim := CheckTarget(turn.target, now, global, turn.eligible);
      Meanwhile(turn.between, aim);
      if aim.Some? {
        service.DispatchBackup(aim.value, turn.accepted, turn.id, turn.at);
        if turn.accepted {
          fired := fired + [FiredBy(aim.value, turn.id)];
        }
      }
    }

    method Tick(turns: seq<Turn>, now: nat, global: Option<string>)
      requires Valid()
      modifies this`lastCheck, this`fired, service
      ensures Valid() && View(None) == ActAll(old(View(None)), TickActions(turns, now, global))
    {
      hide Act, ActAll, TurnActions;
      ghost var start := View(None);
      ActNone(start);
      for i := 0 to |turns|
        invariant Valid() && View(None) == ActAll(start, TickActions(turns[..i], now, global))
      {
        assert turns[..i + 1][..i] == turns[..i];
        ActAppend(start, TickActions(turns[..i], now, global), TurnActions(turns[i], now, global));
        ConsiderTarget(turns[i], now, global);
      }
      assert turns[..|turns|] == turns;
    }
  }

  lemma ActNone(w: World)
    requires Sound(w)
    ensures ActAll(w, []) == w
  {
  }
}
