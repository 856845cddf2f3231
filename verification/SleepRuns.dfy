/** Whole calls of acquiresleep, releasesleep and kill in the runs of SleepLock, and a run in which a lock is taken,
    waited for and passed on. */
module SleepRuns {
  import opened Options
  import opened SleepLock

  // ---------- acquiresleep and releasesleep

  /** Inside acquiresleep for lock l. */
  predicate Acquiring(pc: Pc, l: nat) {
    (pc.WantSpin? || pc.Test? || pc.SleepAcq? || pc.SleepRel? || pc.SleepSet? || pc.Asleep? || pc.Woken? || pc.Reacq?
     || pc.Take? || pc.Taken?) && pc.l == l
  }

  /** Inside releasesleep for lock l. */
  predicate Releasing(pc: Pc, l: nat) {
    (pc.RelAcq? || pc.RelClear? || pc.Wake? || pc.WakeHold? || pc.RelDone?) && pc.l == l
  }

  /** Inside acquiresleep a process stays inside until it returns with the lock. */
  lemma AcquiringStep(s: State, e: Event, s': State, p: nat, l: nat)
    requires Inv(s) && Next(s, e, s') && p < |s.procs| && Acquiring(s.procs[p].pc, l)
    ensures p < |s'.procs|
    ensures Acquiring(s'.procs[p].pc, l) || (s'.procs[p].pc.Idle? && l in s'.procs[p].hold)
  {
    assert PcAt(s, p);
    hide Inv;
  }

  /** Inside releasesleep a process stays inside until it returns, by then without the lock. */
  lemma ReleasingStep(s: State, e: Event, s': State, p: nat, l: nat)
    requires Inv(s) && Next(s, e, s') && p < |s.procs| && Releasing(s.procs[p].pc, l)
    requires !(s.procs[p].pc.RelAcq? || s.procs[p].pc.RelClear?) ==> l !in s.procs[p].hold
    ensures p < |s'.procs| && (Releasing(s'.procs[p].pc, l) || s'.procs[p].pc.Idle?)
    ensures !(s'.procs[p].pc.RelAcq? || s'.procs[p].pc.RelClear?) ==> l !in s'.procs[p].hold
  {
    hide Inv;
  }

  /** Process p is inside a call from state m + 1 up to state n, where it has returned. */
  ghost predicate Returned(ts: seq<State>, es: seq<Event>, m: nat, n: nat, p: nat) {
    && m < n <= |es| < |ts| && (forall k: nat | m < k <= n :: p < |ts[k].procs|)
    && (forall k: nat | m < k < n :: !ts[k].procs[p].pc.Idle?) && ts[n].procs[p].pc.Idle?
  }

  lemma {:induction false} AcquiringUntil(ts: seq<State>, es: seq<Event>, m: nat, n: nat, k: nat, p: nat, l: nat)
    requires Run(ts, es) && Returned(ts, es, m, n, p) && es[m] == DoAcquire(p, l) && m < k <= n
    ensures Acquiring(ts[k].procs[p].pc, l) || (k == n && l in ts[k].procs[p].hold)
    decreases k
  {
    hide Inv;
    assert Next(ts[k - 1], es[k - 1], ts[k - 1 + 1]);
    if m + 1 < k {
      AcquiringUntil(ts, es, m, n, k - 1, p, l);
      RunInv(ts, es, k - 1);
      hide Next;
      AcquiringStep(ts[k - 1], es[k - 1], ts[k], p, l);
    }
  }

  /** acquiresleep returns with the lock: taken, and in the caller's name. */
  lemma AcquireReturns(ts: seq<State>, es: seq<Event>, m: nat, n: nat, p: nat, l: nat)
    requires Run(ts, es) && Returned(ts, es, m, n, p) && es[m] == DoAcquire(p, l)
    ensures l in ts[n].procs[p].hold && l < |ts[n].locks| && ts[n].locks[l].locked && ts[n].locks[l].pid == p
  {
    hide Next, Inv;
    AcquiringUntil(ts, es, m, n, n, p, l);
    LockCount(ts, es, m, n);
    RunInv(ts, es, n);
    AcquireLock(ts[m], es[m], ts[m + 1]);
    HeldFacts(ts[n], p, l);
  }

  lemma AcquireLock(s: State, e: Event, s': State)
    requires Next(s, e, s') && e.DoAcquire?
    ensures e.l < |s.locks|
  {
  }

  lemma StepSizes(s: State, e: Event, s': State)
    requires Next(s, e, s')
    ensures |s'.procs| == |s.procs| && |s'.locks| == |s.locks|
  {
  }

  lemma {:induction false} LockCount(ts: seq<State>, es: seq<Event>, m: nat, n: nat)
    requires Run(ts, es) && m <= n <= |es|
    ensures |ts[n].locks| == |ts[m].locks| && |ts[n].procs| == |ts[m].procs|
    decreases n
  {
    hide Next;
    if m < n {
      LockCount(ts, es, m, n - 1);
      StepSizes(ts[n - 1], es[n - 1], ts[n - 1 + 1]);
    }
  }

  lemma HeldFacts(s: State, p: nat, l: nat)
    requires Inv(s) && p < |s.procs| && l < |s.locks|
    ensures l in s.procs[p].hold <==> s.locks[l].locked && s.locks[l].pid == p
  {
    assert HoldAt(s, p, l);
  }

  lemma {:induction false} ReleasingUntil(ts: seq<State>, es: seq<Event>, m: nat, n: nat, k: nat, p: nat, l: nat)
    requires Run(ts, es) && Returned(ts, es, m, n, p) && es[m] == DoRelease(p, l) && m < k <= n
    ensures Releasing(ts[k].procs[p].pc, l) || k == n
    ensures !(ts[k].procs[p].pc.RelAcq? || ts[k].procs[p].pc.RelClear?) ==> l !in ts[k].procs[p].hold
    decreases k
  {
    hide Inv;
    assert Next(ts[k - 1], es[k - 1], ts[k - 1 + 1]);
    if m + 1 < k {
      ReleasingUntil(ts, es, m, n, k - 1, p, l);
      RunInv(ts, es, k - 1);
      hide Next;
      ReleasingStep(ts[k - 1], es[k - 1], ts[k], p, l);
    }
  }

  /** releasesleep returns without the lock. */
  lemma ReleaseReturns(ts: seq<State>, es: seq<Event>, m: nat, n: nat, p: nat, l: nat)
    requires Run(ts, es) && Returned(ts, es, m, n, p) && es[m] == DoRelease(p, l)
    ensures l !in ts[n].procs[p].hold
  {
    hide Next, Inv, Run;
    ReleasingUntil(ts, es, m, n, n, p, l);
  }

  /** The one step that gives lock l up. */
  predicate GivesUp(s: State, e: Event, p: nat, l: nat) {
    e == DoAct(p) && p < |s.procs| && s.procs[p].pc == RelClear(l)
  }

  lemma HeldStep(s: State, e: Event, s': State, p: nat, l: nat)
    requires Next(s, e, s') && p < |s.procs| && l in s.procs[p].hold && !GivesUp(s, e, p, l)
    ensures p < |s'.procs| && l in s'.procs[p].hold
  {
  }

  /** Between acquiresleep's return and the clearing in its releasesleep, the lock stays that process's. */
  lemma {:induction false} StaysHeld(ts: seq<State>, es: seq<Event>, m: nat, n: nat, p: nat, l: nat)
    requires Run(ts, es) && m <= n <= |es| && p < |ts[m].procs| && l < |ts[m].locks| && l in ts[m].procs[p].hold
    requires forall k: nat | m <= k < n :: !GivesUp(ts[k], es[k], p, l)
    ensures p < |ts[n].procs| && l in ts[n].procs[p].hold
    ensures l < |ts[n].locks| && ts[n].locks[l].locked && ts[n].locks[l].pid == p
    decreases n
  {
    hide Next, Inv;
    LockCount(ts, es, m, n);
    if m < n {
      StaysHeld(ts, es, m, n - 1, p, l);
      HeldStep(ts[n - 1], es[n - 1], ts[n - 1 + 1], p, l);
    }
    RunInv(ts, es, n);
    HeldFacts(ts[n], p, l);
  }

  // ---------- kill

  /** Still before process v in the scan. */
  predicate BeforeVictim(pc: Pc, v: nat) {
    (pc.KillScan? || pc.KillHold?) && pc.v == v && pc.i <= v
  }

  /** kill's step at its victim, holding its lock. */
  predicate AtVictim(s: State, e: Event, p: nat, v: nat) {
    e == DoAct(p) && p < |s.procs| && s.procs[p].pc == KillHold(v, v)
  }

  lemma KillStep(s: State, e: Event, s': State, p: nat, v: nat)
    requires Next(s, e, s') && p < |s.procs| && v < |s.procs| && v != p && BeforeVictim(s.procs[p].pc, v)
    ensures p < |s'.procs| && v < |s'.procs|
    ensures if AtVictim(s, e, p, v) then s'.procs[p].pc.Idle? && !s'.procs[v].run.Sleeping?
      else BeforeVictim(s'.procs[p].pc, v)
  {
  }

  lemma KillStarts(s: State, e: Event, s': State)
    requires Next(s, e, s') && e.DoKill?
    ensures e.p < |s'.procs| && BeforeVictim(s'.procs[e.p].pc, e.v)
  {
  }

  lemma Scanned(pc: Pc, v: nat)
    ensures BeforeVictim(pc, v) ==> !pc.Idle?
  {
  }

  /** kill(v) does not return before it has come to process v, and there it leaves v not asleep. */
  lemma {:induction false} KillWakes(ts: seq<State>, es: seq<Event>, m: nat, n: nat, k: nat, p: nat, v: nat)
    requires Run(ts, es) && Returned(ts, es, m, n, p) && es[m] == DoKill(p, v) && m < k <= n
    requires v < |ts[m].procs| && v != p
    ensures BeforeVictim(ts[k].procs[p].pc, v) <==> k < n
    ensures k == n ==> AtVictim(ts[n - 1], es[n - 1], p, v) && v < |ts[n].procs| && !ts[n].procs[v].run.Sleeping?
    decreases k
  {
    hide Next, BeforeVictim, AtVictim;
    LockCount(ts, es, m, k - 1);
    assert Next(ts[k - 1], es[k - 1], ts[k - 1 + 1]);
    if m + 1 < k {
      KillWakes(ts, es, m, n, k - 1, p, v);
      KillStep(ts[k - 1], es[k - 1], ts[k], p, v);
    } else {
      KillStarts(ts[m], es[m], ts[k]);
    }
    Scanned(ts[k].procs[p].pc, v);
  }

  /** A process is woken only by a wakeup on the channel it sleeps on, or by a kill of it. */
  lemma WokenOnlyBy(s: State, e: Event, s': State, q: nat)
    requires Inv(s) && Next(s, e, s') && q < |s.procs| && s.procs[q].run.Sleeping?
    ensures q < |s'.procs|
    ensures !s'.procs[q].run.Sleeping? ==> e.DoAct? && e.p < |s.procs| && var pc := s.procs[e.p].pc;
      pc == KillHold(q, q) || (pc.WakeHold? && pc.i == q && s.procs[q].chan == Some(pc.l))
  {
    assert RunAt(s, q) && RunAt(s, e.p);
    hide Inv;
  }

  // ---------- a run

  lemma Extended(ts: seq<State>, es: seq<Event>, e: Event, s: State) returns (ts': seq<State>, es': seq<Event>)
    requires Run(ts, es) && Next(ts[|es|], e, s)
    ensures Run(ts', es') && ts' == ts + [s] && es' == es + [e] && |ts'| == |es'| + 1 && ts'[|es'|] == s
  {
    hide Next;
    ts', es' := ts + [s], es + [e];
    forall n: nat | n < |es'| ensures Next(ts'[n], es'[n], ts'[n + 1]) {
      if n < |es| {
        assert Next(ts[n], es[n], ts[n + 1]);
      }
    }
  }

  /** A running process that holds no spinlock of its own. */
  function Calm(pc: Pc, hold: set<nat>): Proc {
    Proc(pc, Running, None, Free, hold)
  }

  /** Process 1 with its own lock held, on its way to sleep. */
  function Pinned(pc: Pc): Proc {
    Proc(pc, Running, None, By(1), {})
  }

  /** Process 1 switched out in sleep. */
  function Out(run: RunState, plock: Holder): Proc {
    Proc(Asleep(0), run, Some(0), plock, {})
  }

  /** Two processes and one sleep lock. */
  function Two(x: Proc, y: Proc, k: Lock): State {
    State([x, y], [k])
  }

  lemma Start() returns (ts: seq<State>, es: seq<Event>)
    ensures Run(ts, es) && es == [] && ts[0] == Two(Calm(Idle, {}), Calm(Idle, {}), Lock(None, false, 0))
  {
    ts, es := [Two(Calm(Idle, {}), Calm(Idle, {}), Lock(None, false, 0))], [];
  }

  /** Process 0 takes the lock. */
  lemma FirstTakes(ts0: seq<State>, es0: seq<Event>) returns (ts: seq<State>, es: seq<Event>)
    requires Run(ts0, es0) && ts0[|es0|] == Two(Calm(Idle, {}), Calm(Idle, {}), Lock(None, false, 0))
    ensures Run(ts, es) && es0 <= es && ts0 <= ts && |es| == |es0| + 5
    ensures ts[|es|] == Two(Calm(Idle, {0}), Calm(Idle, {}), Lock(None, true, 0))
  {
    hide Run;
    RunSize(ts0, es0);
    ts, es := ts0, es0;
    ts, es := Extended(ts, es, DoAcquire(0, 0), Two(Calm(WantSpin(0), {}), Calm(Idle, {}), Lock(None, false, 0)));
    ts, es := Extended(ts, es, DoAct(0), Two(Calm(Test(0), {}), Calm(Idle, {}), Lock(Some(0), false, 0)));
    ts, es := Extended(ts, es, DoAct(0), Two(Calm(Take(0), {}), Calm(Idle, {}), Lock(Some(0), false, 0)));
    assert {} + {0} == {0};
    ts, es := Extended(ts, es, DoAct(0), Two(Calm(Taken(0), {0}), Calm(Idle, {}), Lock(Some(0), true, 0)));
    ts, es := Extended(ts, es, DoAct(0), Two(Calm(Idle, {0}), Calm(Idle, {}), Lock(None, true, 0)));
  }

  /** Process 1 finds it taken and goes to sleep. */
  lemma SecondWaits(ts0: seq<State>, es0: seq<Event>) returns (ts: seq<State>, es: seq<Event>)
    requires Run(ts0, es0) && ts0[|es0|] == Two(Calm(Idle, {0}), Calm(Idle, {}), Lock(None, true, 0))
    ensures Run(ts, es) && es0 <= es && ts0 <= ts && |es| == |es0| + 7
    ensures ts[|es|] == Two(Calm(Idle, {0}), Out(Sleeping, Free), Lock(None, true, 0))
  {
    hide Run;
    RunSize(ts0, es0);
    ts, es := ts0, es0;
    ts, es := Extended(ts, es, DoAcquire(1, 0), Two(Calm(Idle, {0}), Calm(WantSpin(0), {}), Lock(None, true, 0)));
    ts, es := Extended(ts, es, DoAct(1), Two(Calm(Idle, {0}), Calm(Test(0), {}), Lock(Some(1), true, 0)));
    ts, es := Extended(ts, es, DoAct(1), Two(Calm(Idle, {0}), Calm(SleepAcq(0), {}), Lock(Some(1), true, 0)));
    ts, es := Extended(ts, es, DoAct(1), Two(Calm(Idle, {0}), Pinned(SleepRel(0)), Lock(Some(1), true, 0)));
    ts, es := Extended(ts, es, DoAct(1), Two(Calm(Idle, {0}), Pinned(SleepSet(0)), Lock(None, true, 0)));
    ts, es := Extended(ts, es, DoAct(1), Two(Calm(Idle, {0}), Out(Sleeping, Scheduler), Lock(None, true, 0)));
    ts, es := Extended(ts, es, DoUnlock(1), Two(Calm(Idle, {0}), Out(Sleeping, Free), Lock(None, true, 0)));
  }

  /** Process 0 releases it and wakes process 1. */
  lemma FirstReleases(ts0: seq<State>, es0: seq<Event>) returns (ts: seq<State>, es: seq<Event>)
    requires Run(ts0, es0) && ts0[|es0|] == Two(Calm(Idle, {0}), Out(Sleeping, Free), Lock(None, true, 0))
    ensures Run(ts, es) && es0 <= es && ts0 <= ts && |es| == |es0| + 8
    ensures ts[|es|] == Two(Calm(Idle, {}), Out(Runnable, Free), Lock(None, false, 0))
  {
    hide Run;
    RunSize(ts0, es0);
    ts, es := ts0, es0;
    ts, es := Extended(ts, es, DoRelease(0, 0), Two(Calm(RelAcq(0), {0}), Out(Sleeping, Free), Lock(None, true, 0)));
    ts, es := Extended(ts, es, DoAct(0), Two(Calm(RelClear(0), {0}), Out(Sleeping, Free), Lock(Some(0), true, 0)));
    assert {0} - {0} == {};
    ts, es := Extended(ts, es, DoAct(0), Two(Calm(Wake(0, 0), {}), Out(Sleeping, Free), Lock(Some(0), false, 0)));
    ts, es := Extended(ts, es, DoAct(0), Two(Calm(Wake(0, 1), {}), Out(Sleeping, Free), Lock(Some(0), false, 0)));
    ts, es := Extended(ts, es, DoAct(0), Two(Calm(WakeHold(0, 1), {}), Out(Sleeping, By(0)), Lock(Some(0), false, 0)));
    ts, es := Extended(ts, es, DoAct(0), Two(Calm(Wake(0, 2), {}), Out(Runnable, Free), Lock(Some(0), false, 0)));
    ts, es := Extended(ts, es, DoAct(0), Two(Calm(RelDone(0), {}), Out(Runnable, Free), Lock(Some(0), false, 0)));
    ts, es := Extended(ts, es, DoAct(0), Two(Calm(Idle, {}), Out(Runnable, Free), Lock(None, false, 0)));
  }

  /** Process 1 takes it. */
  lemma SecondTakes(ts0: seq<State>, es0: seq<Event>) returns (ts: seq<State>, es: seq<Event>)
    requires Run(ts0, es0) && ts0[|es0|] == Two(Calm(Idle, {}), Out(Runnable, Free), Lock(None, false, 0))
    ensures Run(ts, es) && es0 <= es && ts0 <= ts && |es| == |es0| + 6
    ensures ts[|es|] == Two(Calm(Idle, {}), Calm(Idle, {0}), Lock(None, true, 1))
  {
    hide Run;
    RunSize(ts0, es0);
    ts, es := ts0, es0;
    ts, es := Extended(ts, es, DoDispatch(1),
      Two(Calm(Idle, {}), Proc(Woken(0), Running, Some(0), By(1), {}), Lock(None, false, 0)));
    ts, es := Extended(ts, es, DoAct(1), Two(Calm(Idle, {}), Calm(Reacq(0), {}), Lock(None, false, 0)));
    ts, es := Extended(ts, es, DoAct(1), Two(Calm(Idle, {}), Calm(Test(0), {}), Lock(Some(1), false, 0)));
    ts, es := Extended(ts, es, DoAct(1), Two(Calm(Idle, {}), Calm(Take(0), {}), Lock(Some(1), false, 0)));
    assert {} + {0} == {0};
    ts, es := Extended(ts, es, DoAct(1), Two(Calm(Idle, {}), Calm(Taken(0), {0}), Lock(Some(1), true, 1)));
    ts, es := Extended(ts, es, DoAct(1), Two(Calm(Idle, {}), Calm(Idle, {0}), Lock(None, true, 1)));
  }

  /** A run in which process 0 takes the lock, process 1 waits for it asleep, and process 0 passes it on. */
  lemma PassedOn() returns (ts: seq<State>, es: seq<Event>)
    ensures Run(ts, es) && |es| == 26
    ensures ts[5] == Two(Calm(Idle, {0}), Calm(Idle, {}), Lock(None, true, 0))
    ensures ts[12] == Two(Calm(Idle, {0}), Out(Sleeping, Free), Lock(None, true, 0))
    ensures ts[20] == Two(Calm(Idle, {}), Out(Runnable, Free), Lock(None, false, 0))
    ensures ts[26] == Two(Calm(Idle, {}), Calm(Idle, {0}), Lock(None, true, 1))
  {
    hide Run;
    ts, es := Start();
    RunSize(ts, es);
    ts, es := FirstTakes(ts, es);
    RunSize(ts, es);
    ts, es := SecondWaits(ts, es);
    RunSize(ts, es);
    ts, es := FirstReleases(ts, es);
    RunSize(ts, es);
    ts, es := SecondTakes(ts, es);
    RunSize(ts, es);
  }

  lemma RunSize(ts: seq<State>, es: seq<Event>)
    requires Run(ts, es)
    ensures |ts| == |es| + 1
  {
  }
}
