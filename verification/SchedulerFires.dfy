/** When the scheduler fires: every backup it dispatched has its grounds in a check of the run, and a tick dispatches
    exactly the backups that have them. */
module SchedulerFires {
  import opened Text
  import opened JobSpec
  import opened JobRuns
  import opened CronMatch
  import opened Scheduler

  /** The target's own expression when it has one, else the global one, matches the minute. */
  predicate ScheduledAt(target: Target, global: Option<string>, now: nat) {
    if target.cron.Some? && target.cron.value != "" then CronMatches(target.cron.value, now)
    else global.Some? && global.value != "" && CronMatches(global.value, now)
  }

  /** Enabled, scheduled for this minute, and not marked in it. */
  predicate Called(w: World, target: Target, global: Option<string>, now: nat) {
    target.enabled && ScheduledAt(target, global, now) && (target.id in w.last ==> w.last[target.id] + 1 <= now)
  }

  /** No backup of the target is pending or in progress. */
  ghost predicate Idle(w: World, target: string) {
    forall id | id in w.state.jobs && w.state.jobs[id].target == Some(target) && w.state.jobs[id].command == "backup.run" ::
      w.state.jobs[id].status != Pending && w.state.jobs[id].status != InProgress
  }

  /** A check that calls for a backup: the target's schedule names the minute, its worker is eligible and it is idle. */
  ghost predicate Grounds(w: World, a: Action, target: string, worker: string, minute: nat) {
    && a.Check? && a.target.id == target && a.target.worker == worker && a.now == minute && a.eligible == Some(true)
    && Called(w, a.target, a.global, minute) && Idle(w, target)
  }

  /** What a check does. */
  lemma CheckOutcome(w: World, now: nat, target: Target, global: Option<string>, eligible: Option<bool>)
    ensures var w' := Checked(w, now, target, global, eligible); var called := Called(w, target, global, now);
            && w'.state == w.state && w'.fired == w.fired
            && w'.last == (if called && eligible.Some? then w.last[target.id := now] else w.last)
            && w'.aim == if called && eligible == Some(true) && Idle(w, target.id) then Some(Aim(target.id, target.worker, now)) else w.aim
  {
    hide CronMatches;
  }

  // Over runs

  /** Where in the run the grounds were. */
  ghost predicate GroundsAt(actions: seq<Action>, c: nat, target: string, worker: string, minute: nat) {
    hide ActAll, Grounds;
    c < |actions| && Grounds(ActAll(EMPTY, actions[..c]), actions[c], target, worker, minute)
  }

  /** The check came first, and an accepted dispatch of this job later. */
  ghost predicate FiredBecause(actions: seq<Action>, f: Fired) {
    hide GroundsAt;
    exists c, k | 0 <= c < k < |actions| ::
      GroundsAt(actions, c, f.target, f.worker, f.minute) && actions[k].Fire? && actions[k].accepted && actions[k].id == f.job
  }

  ghost predicate AimedBecause(actions: seq<Action>, aim: Aim) {
    hide GroundsAt;
    exists c | 0 <= c < |actions| :: GroundsAt(actions, c, aim.target, aim.worker, aim.minute)
  }

  ghost predicate AllBecause(actions: seq<Action>) {
    hide ActAll, FiredBecause, AimedBecause;
    var w := ActAll(EMPTY, actions);
    && (w.aim.Some? ==> AimedBecause(actions, w.aim.value))
    && forall i | 0 <= i < |w.fired| :: FiredBecause(actions, w.fired[i])
  }

  lemma GroundsStay(actions: seq<Action>, a: Action, c: nat, target: string, worker: string, minute: nat)
    requires GroundsAt(actions, c, target, worker, minute)
    ensures GroundsAt(actions + [a], c, target, worker, minute)
  {
    hide ActAll, Grounds;
    assert (actions + [a])[..c] == actions[..c];
  }

  lemma BecauseStays(actions: seq<Action>, a: Action, f: Fired)
    requires FiredBecause(actions, f)
    ensures FiredBecause(actions + [a], f)
  {
    hide GroundsAt;
    var c, k :| 0 <= c < k < |actions| && GroundsAt(actions, c, f.target, f.worker, f.minute)
                && actions[k].Fire? && actions[k].accepted && actions[k].id == f.job;
    GroundsStay(actions, a, c, f.target, f.worker, f.minute);
    assert (actions + [a])[k] == actions[k];
  }

  lemma AimStays(actions: seq<Action>, a: Action, aim: Aim)
    requires AimedBecause(actions, aim)
    ensures AimedBecause(actions + [a], aim)
  {
    hide GroundsAt;
    var c :| 0 <= c < |actions| && GroundsAt(actions, c, aim.target, aim.worker, aim.minute);
    GroundsStay(actions, a, c, aim.target, aim.worker, aim.minute);
  }

  lemma FireBecause(actions: seq<Action>, a: Action, aim: Aim)
    requires AimedBecause(actions, aim) && a.Fire? && a.accepted
    ensures FiredBecause(actions + [a], FiredBy(aim, a.id))
  {
    hide GroundsAt;
    var c :| 0 <= c < |actions| && GroundsAt(actions, c, aim.target, aim.worker, aim.minute);
    GroundsStay(actions, a, c, aim.target, aim.worker, aim.minute);
    assert (actions + [a])[|actions|] == a;
  }

  lemma CheckBecause(actions: seq<Action>, a: Action)
    requires a.Check? && AllBecause(actions)
    ensures AllBecause(actions + [a])
  {
    hide ActAll, Checked, Called, Idle, FiredBecause, AimedBecause;
    var w, n := ActAll(EMPTY, actions), |actions|;
    OneMore(actions, a);
    CheckOutcome(w, a.now, a.target, a.global, a.eligible);
    assert (actions + [a])[..n] == actions && (actions + [a])[n] == a;
    forall i | 0 <= i < |w.fired| {
      BecauseStays(actions, a, w.fired[i]);
    }
    if Called(w, a.target, a.global, a.now) && a.eligible == Some(true) && Idle(w, a.target.id) {
      assert GroundsAt(actions + [a], n, a.target.id, a.target.worker, a.now);
      CheckAims(actions + [a], n, Aim(a.target.id, a.target.worker, a.now));
    } else if w.aim.Some? {
      AimStays(actions, a, w.aim.value);
    }
  }

  lemma CheckAims(actions: seq<Action>, c: nat, aim: Aim)
    requires GroundsAt(actions, c, aim.target, aim.worker, aim.minute)
    ensures AimedBecause(actions, aim)
  {
  }

  lemma OneMore(actions: seq<Action>, a: Action)
    ensures ActAll(EMPTY, actions + [a]) == Act(ActAll(EMPTY, actions), a)
  {
    hide Act;
    ActAppend(EMPTY, actions, [a]);
    ActOne(ActAll(EMPTY, actions), a);
  }

  lemma ActBecause(actions: seq<Action>, a: Action)
    requires AllBecause(actions)
    ensures AllBecause(actions + [a])
  {
    hide ActAll, Checked, Next, FiredBecause, AimedBecause;
    var w := ActAll(EMPTY, actions);
    if a.Check? {
      CheckBecause(actions, a);
    } else {
      OneMore(actions, a);
      forall i | 0 <= i < |w.fired| {
        BecauseStays(actions, a, w.fired[i]);
      }
      if w.aim.Some? {
        AimStays(actions, a, w.aim.value);
        if a.Fire? && a.accepted {
          FireBecause(actions, a, w.aim.value);
        }
      }
    }
  }

  lemma {:induction false} RunBecause(actions: seq<Action>)
    ensures AllBecause(actions)
  {
    hide FiredBecause, AimedBecause;
    if actions != [] {
      hide AllBecause;
      var n := |actions| - 1;
      RunBecause(actions[..n]);
      ActBecause(actions[..n], actions[n]);
      assert actions == actions[..n] + [actions[n]];
    }
  }

  /** Over every run from the start: a backup that was dispatched was called for by an earlier check of its own target, at
      its minute, and it is a backup of that target on that target's worker. */
  lemma EveryFiringHasGrounds(actions: seq<Action>, i: nat)
    requires AllowedAll(EMPTY, actions) && i < |ActAll(EMPTY, actions).fired|
    ensures var w := ActAll(EMPTY, actions); var f := w.fired[i];
            && FiredBecause(actions, f)
            && f.job in w.state.jobs && w.state.jobs[f.job].target == Some(f.target) && w.state.jobs[f.job].worker == f.worker
            && w.state.jobs[f.job].command == "backup.run"
  {
    hide ActAll, AllowedAll, FiredBecause, AimedBecause;
    RunBecause(actions);
    RunHolds(EMPTY, actions);
  }

  // One turn, and the turns of a tick

  /** The operations of other threads, all of them in order. */
  lemma {:induction false} OthersAre(steps: seq<Step>)
    ensures |Others(steps)| == |steps| && forall i | 0 <= i < |steps| :: Others(steps)[i] == Other(steps[i])
  {
    if steps != [] {
      OthersAre(steps[..|steps| - 1]);
    }
  }

  lemma {:induction false} OthersKeep(w: World, steps: seq<Step>)
    requires Sound(w)
    ensures var w' := ActAll(w, Others(steps)); w'.last == w.last && w'.aim == w.aim && w'.fired == w.fired
  {
    hide Next;
    if steps != [] {
      hide Act;
      var n := |steps| - 1;
      OthersKeep(w, steps[..n]);
      var here := ActAll(w, Others(steps[..n]));
      ActAppend(w, Others(steps[..n]), [Other(steps[n])]);
      ActOne(here, Other(steps[n]));
      OtherKeeps(here, steps[n]);
    }
  }

  lemma OtherKeeps(w: World, step: Step)
    requires Sound(w)
    ensures Act(w, Other(step)) == w.(state := Next(w.state, step))
  {
  }

  /** What a turn leaves behind, where `w1` is the world the check meets. */
  ghost predicate TurnOutcome(w: World, w1: World, turn: Turn, now: nat, global: Option<string>, w': World) {
    hide Called, Idle;
    var called := Called(w1, turn.target, global, now);
    var fires := called && turn.eligible == Some(true) && Idle(w1, turn.target.id) && turn.accepted;
    && w'.aim.None?
    && w'.last == (if called && turn.eligible.Some? then w.last[turn.target.id := now] else w.last)
    && w'.fired == (if fires then w.fired + [Fired(turn.target.id, turn.target.worker, turn.id, now)] else w.fired)
    && (fires ==> turn.id in w'.state.jobs && NewBackup(w'.state.jobs[turn.id], turn))
  }

  ghost predicate TurnTaken(w: World, turn: Turn, now: nat, global: Option<string>, w': World)
    requires Sound(w)
  {
    hide ActAll, Others, TurnOutcome;
    TurnOutcome(w, ActAll(w, Others(turn.before)), turn, now, global, w')
  }

  /** The job a turn dispatches. */
  ghost predicate NewBackup(j: Job, turn: Turn) {
    && j.target == Some(turn.target.id) && j.worker == turn.target.worker && j.command == "backup.run" && j.requestedBy == "scheduler"
    && j.status == Pending && j.submitted == turn.at
  }

  /** A turn marks its target exactly when its schedule calls it in a minute not yet marked and the eligibility lookup
      answers, and dispatches a backup exactly when the worker is eligible besides and the target idle. */
  lemma TurnFires(w: World, turn: Turn, now: nat, global: Option<string>)
    requires Sound(w) && w.aim.None?
    ensures TurnTaken(w, turn, now, global, ActAll(w, TurnActions(turn, now, global)))
  {
    hide ActAll, Others, TurnActions, Checked, NextJobs, Observed, Next, NewBackup, Called, Idle, CronMatches, ActiveBackup, Due, FireStep;
    var w1 := ActAll(w, Others(turn.before));
    OthersKeep(w, turn.before);
    TurnInParts(w, turn, now, global);
    CheckOutcome(w1, now, turn.target, global, turn.eligible);
    var w2 := Checked(w1, now, turn.target, global, turn.eligible);
    var w3 := ActAll(w2, Others(turn.between));
    OthersKeep(w2, turn.between);
    if w3.aim.Some? && turn.accepted {
      DispatchedBackup(w3.state, w3.aim.value, turn);
    }
  }

  lemma DispatchedBackup(s: State, aim: Aim, turn: Turn)
    requires s.life.Keys == s.jobs.Keys && aim.target == turn.target.id && aim.worker == turn.target.worker
    ensures var jobs := Next(s, FireStep(aim, turn.id, turn.at)).jobs; turn.id in jobs && NewBackup(jobs[turn.id], turn)
  {
    hide Reconcile, Claim, Renew, Progress, ReportOne, CancelOne, Holds, ReportAccepted, Cancelable, Unexpired, Owns, Observed;
  }

  /** The world before the `i`-th turn of a tick. */
  ghost function BeforeTurn(w: World, turns: seq<Turn>, i: nat, now: nat, global: Option<string>): (w': World)
    requires Sound(w) && i <= |turns|
    ensures Sound(w')
  {
    hide ActAll, TickActions;
    ActAll(w, TickActions(turns[..i], now, global))
  }

  lemma NothingBefore(w: World, turns: seq<Turn>, now: nat, global: Option<string>)
    requires Sound(w)
    ensures BeforeTurn(w, turns, 0, now, global) == w
  {
  }

  lemma OneTurn(w: World, turns: seq<Turn>, i: nat, now: nat, global: Option<string>)
    requires Sound(w) && i < |turns|
    ensures BeforeTurn(w, turns, i + 1, now, global) == ActAll(BeforeTurn(w, turns, i, now, global), TurnActions(turns[i], now, global))
  {
    hide ActAll, TurnActions;
    assert turns[..i + 1][..i] == turns[..i];
    ActAppend(w, TickActions(turns[..i], now, global), TurnActions(turns[i], now, global));
  }

  /** A tick takes all its turns in order, each with the outcome of a turn. */
  lemma {:induction false} TickFires(w: World, turns: seq<Turn>, now: nat, global: Option<string>, i: nat)
    requires Sound(w) && w.aim.None? && i < |turns|
    ensures BeforeTurn(w, turns, 0, now, global) == w
    ensures BeforeTurn(w, turns, |turns|, now, global) == ActAll(w, TickActions(turns, now, global))
    ensures BeforeTurn(w, turns, i, now, global).aim.None?
    ensures TurnTaken(BeforeTurn(w, turns, i, now, global), turns[i], now, global, BeforeTurn(w, turns, i + 1, now, global))
    decreases i
  {
    hide BeforeTurn, TurnTaken, ActAll, TickActions, TurnActions, Others;
    NothingBefore(w, turns, now, global);
    WholeTick(w, turns, now, global);
    if i > 0 {
      TickFires(w, turns, now, global, i - 1);
      TakenAimsAtNone(BeforeTurn(w, turns, i - 1, now, global), turns[i - 1], now, global, BeforeTurn(w, turns, i, now, global));
    }
    OneTurn(w, turns, i, now, global);
    TurnFires(BeforeTurn(w, turns, i, now, global), turns[i], now, global);
  }

  lemma WholeTick(w: World, turns: seq<Turn>, now: nat, global: Option<string>)
    requires Sound(w)
    ensures BeforeTurn(w, turns, |turns|, now, global) == ActAll(w, TickActions(turns, now, global))
  {
    hide ActAll, TickActions;
    assert turns[..|turns|] == turns;
  }

  lemma TakenAimsAtNone(w: World, turn: Turn, now: nat, global: Option<string>, w': World)
    requires Sound(w) && TurnTaken(w, turn, now, global, w')
    ensures w'.aim.None?
  {
    hide ActAll, Others;
  }
}
