/** Sleep locks, sleep, wakeup, kill and the hand-over of p->lock between sched and scheduler, as steps between the
    spinlock operations of any number of processes. */
module SleepLock {
  import opened Options

  /** Where a process is; l is a sleep lock, which is also the channel slept on. */
  datatype Pc =
    | Idle
    | WantSpin(l: nat)                 // acquiresleep: acquire(&lk->lk)
    | Test(l: nat)                     // while (lk->locked)
    | SleepAcq(l: nat)                 // sleep: acquire(&p->lock)
    | SleepRel(l: nat)                 // sleep: release(lk)
    | SleepSet(l: nat)                 // sleep: p->chan = chan; p->state = SLEEPING; sched()
    | Asleep(l: nat)                   // switched out in sched
    | Woken(l: nat)                    // back from sched: p->chan = 0; release(&p->lock)
    | Reacq(l: nat)                    // sleep: acquire(lk)
    | Take(l: nat)                     // lk->locked = 1; lk->pid = myproc()->pid
    | Taken(l: nat)                    // acquiresleep: release(&lk->lk)
    | RelAcq(l: nat)                   // releasesleep: acquire(&lk->lk)
    | RelClear(l: nat)                 // lk->locked = 0; lk->pid = 0
    | Wake(l: nat, i: nat)             // wakeup, about to look at process i
    | WakeHold(l: nat, i: nat)         // wakeup, holding process i's lock
    | RelDone(l: nat)                  // releasesleep: release(&lk->lk)
    | KillScan(v: nat, i: nat)         // kill, about to look at process i
    | KillHold(v: nat, i: nat)         // kill, holding process i's lock

  datatype RunState = Runnable | Running | Sleeping

  datatype Holder = Free | By(q: nat) | Scheduler

  datatype Proc = Proc(pc: Pc, run: RunState, chan: Option<nat>, plock: Holder, hold: set<nat>)

  datatype Lock = Lock(spin: Option<nat>, locked: bool, pid: nat)

  datatype State = State(procs: seq<Proc>, locks: seq<Lock>)

  /** The lock a pc is about. */
  predicate Spinning(pc: Pc, l: nat) {
    (pc.Test? || pc.SleepAcq? || pc.SleepRel? || pc.Take? || pc.Taken? || pc.RelClear? || pc.Wake? || pc.WakeHold?
     || pc.RelDone?) && pc.l == l
  }

  /** pc holds process i's lock, in process p. */
  predicate Pinning(pc: Pc, p: nat, i: nat) {
    || ((pc.SleepRel? || pc.SleepSet? || pc.Woken?) && i == p)
    || ((pc.WakeHold? || pc.KillHold?) && pc.i == i)
  }

  predicate LockOf(s: State, pc: Pc) {
    match pc
    case Idle => true
    case KillScan(_, i) => i <= |s.procs|
    case KillHold(_, i) => i < |s.procs|
    case Wake(l, i) => l < |s.locks| && i <= |s.procs|
    case WakeHold(l, i) => l < |s.locks| && i < |s.procs|
    case _ => pc.l < |s.locks|
  }

  /** A step of process p that concerns its own record x and the record k of the sleep lock its pc is about;
      None while it waits for a spinlock. */
  function LockStep(p: nat, x: Proc, k: Lock): Option<(Proc, Lock)> {
    match x.pc
    case WantSpin(l) => if k.spin.Some? then None else Some((x.(pc := Test(l)), k.(spin := Some(p))))
    case Reacq(l) => if k.spin.Some? then None else Some((x.(pc := Test(l)), k.(spin := Some(p))))
    case Test(l) => Some((x.(pc := if k.locked then SleepAcq(l) else Take(l)), k))
    case SleepAcq(l) => if x.plock.Free? then Some((x.(plock := By(p), pc := SleepRel(l)), k)) else None
    case SleepRel(l) => Some((x.(pc := SleepSet(l)), k.(spin := None)))
    case SleepSet(l) => Some((x.(chan := Some(l), run := Sleeping, plock := Scheduler, pc := Asleep(l)), k))
    case Woken(l) => Some((x.(chan := None, plock := Free, pc := Reacq(l)), k))
    case Take(l) => Some((x.(hold := x.hold + {l}, pc := Taken(l)), k.(locked := true, pid := p)))
    case Taken(l) => Some((x.(pc := Idle), k.(spin := None)))
    case RelAcq(l) => if k.spin.Some? then None else Some((x.(pc := RelClear(l)), k.(spin := Some(p))))
    case RelClear(l) => Some((x.(hold := x.hold - {l}, pc := Wake(l, 0)), k.(locked := false, pid := 0)))
    case RelDone(l) => Some((x.(pc := Idle), k.(spin := None)))
    case _ => None
  }

  /** A step of process p in wakeup or kill that concerns the record y of another process i: lock it, or wake it if it
      is the one and unlock it. */
  function PairStep(p: nat, x: Proc, y: Proc): Option<(Proc, Proc)> {
    match x.pc
    case Wake(l, i) => if y.plock.Free? then Some((x.(pc := WakeHold(l, i)), y.(plock := By(p)))) else None
    case WakeHold(l, i) =>
      Some((x.(pc := Wake(l, i + 1)),
            y.(plock := Free, run := if y.run.Sleeping? && y.chan == Some(l) then Runnable else y.run)))
    case KillScan(v, i) => if y.plock.Free? then Some((x.(pc := KillHold(v, i)), y.(plock := By(p)))) else None
    case KillHold(v, i) =>
      Some((x.(pc := if i == v then Idle else KillScan(v, i + 1)),
            y.(plock := Free, run := if i == v && y.run.Sleeping? then Runnable else y.run)))
    case _ => None
  }

  /** A step past the end of the process table, or past the process itself: wakeup skips it, and kill finds it
      RUNNING and leaves it so. */
  function SkipStep(p: nat, x: Proc): Proc {
    match x.pc
    case Wake(l, i) => x.(pc := if i == p then Wake(l, i + 1) else RelDone(l))
    case KillScan(v, i) => x.(pc := if i == p != v then KillScan(v, i + 1) else Idle)
    case _ => x
  }

  predicate Scanning(pc: Pc) {
    pc.Wake? || pc.WakeHold? || pc.KillScan? || pc.KillHold?
  }

  /** The next step of running process p. */
  ghost predicate Act(s: State, p: nat, s': State)
    requires p < |s.procs| && LockOf(s, s.procs[p].pc)
  {
    var x := s.procs[p];
    if x.pc.Idle? || x.pc.Asleep? then false
    else if !Scanning(x.pc) then
      var r := LockStep(p, x, s.locks[x.pc.l]);
      r.Some? && s' == State(s.procs[p := r.value.0], s.locks[x.pc.l := r.value.1])
    else if (x.pc.Wake? || x.pc.KillScan?) && (x.pc.i == |s.procs| || x.pc.i == p) then
      s' == s.(procs := s.procs[p := SkipStep(p, x)])
    else
      var r := PairStep(p, x, s.procs[x.pc.i]);
      r.Some? && s' == s.(procs := s.procs[x.pc.i := r.value.1][p := r.value.0])
  }

  datatype Event =
    | DoAct(p: nat)
    | DoAcquire(p: nat, l: nat)        // call acquiresleep
    | DoRelease(p: nat, l: nat)        // call releasesleep, by the holder
    | DoKill(p: nat, v: nat)           // call kill for process v
    | DoUnlock(p: nat)                 // scheduler: release(&p->lock) after the switch
    | DoDispatch(p: nat)               // scheduler: find p RUNNABLE and switch to it
    | DoYield(p: nat)                  // timer: give up the CPU where no spinlock is held

  /** A process back from sched holds its own lock, which the scheduler hands over. */
  function Dispatched(p: nat, x: Proc): Proc {
    if x.pc.Asleep? then x.(run := Running, plock := By(p), pc := Woken(x.pc.l)) else x.(run := Running)
  }

  ghost predicate Next(s: State, e: Event, s': State) {
    && e.p < |s.procs|
    && var x := s.procs[e.p];
      match e
      case DoAct(p) => x.run.Running? && LockOf(s, x.pc) && Act(s, p, s')
      case DoAcquire(p, l) =>
        && x.run.Running? && x.pc.Idle? && l < |s.locks|
        && s' == s.(procs := s.procs[p := x.(pc := WantSpin(l))])
      case DoRelease(p, l) =>
        && x.run.Running? && x.pc.Idle? && l in x.hold && l < |s.locks|
        && s' == s.(procs := s.procs[p := x.(pc := RelAcq(l))])
      case DoKill(p, v) => x.run.Running? && x.pc.Idle? && s' == s.(procs := s.procs[p := x.(pc := KillScan(v, 0))])
      case DoUnlock(p) => x.plock.Scheduler? && s' == s.(procs := s.procs[p := x.(plock := Free)])
      case DoDispatch(p) =>
        && x.run.Runnable? && x.plock.Free?
        && s' == s.(procs := s.procs[p := Dispatched(p, x)])
      case DoYield(p) =>
        && x.run.Running? && x.plock.Free?
        && (x.pc.Idle? || x.pc.WantSpin? || x.pc.Reacq? || x.pc.RelAcq? || x.pc.KillScan?)
        && s' == s.(procs := s.procs[p := x.(run := Runnable)])
  }

  ghost predicate Boot(s: State) {
    && (forall p: nat | p < |s.procs| ::
          s.procs[p] == Proc(Idle, s.procs[p].run, None, Free, {}) && !s.procs[p].run.Sleeping?)
    && (forall l: nat | l < |s.locks| :: s.locks[l] == Lock(None, false, 0))
  }

  // ---------- what every step keeps

  /** A sleep lock's spinlock is held by the one process whose pc says so. */
  ghost predicate SpinOk(s: State) {
    forall p: nat, l: nat | p < |s.procs| && l < |s.locks| :: SpinAt(s, p, l)
  }

  ghost predicate SpinAt(s: State, p: nat, l: nat)
    requires p < |s.procs| && l < |s.locks|
  {
    Spinning(s.procs[p].pc, l) <==> s.locks[l].spin == Some(p)
  }

  /** So is a process's own lock, or it is in the scheduler's hands. */
  ghost predicate PinOk(s: State) {
    forall p: nat, i: nat | p < |s.procs| && i < |s.procs| :: PinAt(s, p, i)
  }

  ghost predicate PinAt(s: State, p: nat, i: nat)
    requires p < |s.procs| && i < |s.procs|
  {
    Pinning(s.procs[p].pc, p, i) <==> s.procs[i].plock == By(p)
  }

  /** A process is asleep only on the channel it went to sleep on, and a running one is not switched out. */
  ghost predicate RunOk(s: State) {
    forall p: nat | p < |s.procs| :: RunAt(s, p)
  }

  ghost predicate RunAt(s: State, p: nat)
    requires p < |s.procs|
  {
    var x := s.procs[p];
    && LockOf(s, x.pc)
    && (x.pc.Asleep? ==> x.chan == Some(x.pc.l) && !x.run.Running?)
    && (x.run.Sleeping? || x.plock.Scheduler? ==> x.pc.Asleep?)
    && (x.pc.WakeHold? || x.pc.KillHold? ==> x.pc.i != p)
  }

  /** A process holds exactly what is locked in its name, and nothing is locked in the name of no process; one that has
      taken a lock or is about to release it holds it, and one on its way to sleep saw it locked. */
  ghost predicate HoldOk(s: State) {
    && (forall p: nat, l: nat | p < |s.procs| && l < |s.locks| :: HoldAt(s, p, l))
    && (forall p: nat | p < |s.procs| :: PcAt(s, p))
    && (forall l: nat | l < |s.locks| :: OwnedAt(s, l))
  }

  ghost predicate OwnedAt(s: State, l: nat)
    requires l < |s.locks|
  {
    s.locks[l].locked ==> s.locks[l].pid < |s.procs|
  }

  ghost predicate HoldAt(s: State, p: nat, l: nat)
    requires p < |s.procs| && l < |s.locks|
  {
    l in s.procs[p].hold <==> s.locks[l].locked && s.locks[l].pid == p
  }

  ghost predicate PcAt(s: State, p: nat)
    requires p < |s.procs|
  {
    var x := s.procs[p];
    && (x.pc.Taken? || x.pc.RelAcq? || x.pc.RelClear? ==> x.pc.l in x.hold)
    && (x.pc.Take? ==> x.pc.l < |s.locks| && !s.locks[x.pc.l].locked)
    && (x.pc.SleepAcq? || x.pc.SleepRel? ==> x.pc.l < |s.locks| && s.locks[x.pc.l].locked)
  }

  /** Past the point of no return on the way to sleep on l, or asleep on it. */
  predicate Committed(x: Proc, l: nat) {
    (x.pc.SleepSet? && x.pc.l == l) || (x.pc.Asleep? && x.pc.l == l && x.run.Sleeping?)
  }

  /** Whoever sleeps on an unlocked lock is still ahead of the wakeup that is under way. */
  ghost predicate WakeOk(s: State) {
    forall p: nat, l: nat | p < |s.procs| && l < |s.locks| :: WakeAt(s, p, l)
  }

  ghost predicate WakeAt(s: State, p: nat, l: nat)
    requires p < |s.procs| && l < |s.locks|
  {
    Committed(s.procs[p], l) && !s.locks[l].locked ==> WakeComing(s, p, l)
  }

  ghost predicate WakeComing(s: State, p: nat, l: nat)
    requires l < |s.locks|
  {
    s.locks[l].spin.Some? && var q := s.locks[l].spin.value;
      && q < |s.procs| && q != p && (s.procs[q].pc.Wake? || s.procs[q].pc.WakeHold?)
      && s.procs[q].pc.l == l && s.procs[q].pc.i <= p
  }

  ghost predicate Inv(s: State) {
    SpinOk(s) && PinOk(s) && RunOk(s) && HoldOk(s) && WakeOk(s)
  }

  lemma BootInv(s: State)
    requires Boot(s)
    ensures Inv(s)
  {
    assert SpinOk(s) && PinOk(s) && RunOk(s) && HoldOk(s) && WakeOk(s);
  }

  // ---------- every step keeps it

  ghost predicate ActStep(s: State, p: nat, s': State) {
    p < |s.procs| && s.procs[p].run.Running? && LockOf(s, s.procs[p].pc) && Act(s, p, s')
  }

  lemma ActSpinAt(s: State, p: nat, s': State, q: nat, l: nat)
    requires ActStep(s, p, s') && q < |s.procs| && l < |s.locks| && SpinAt(s, q, l) && SpinAt(s, p, l)
    ensures q < |s'.procs| && l < |s'.locks| && SpinAt(s', q, l)
  {
  }

  lemma ActPinAt(s: State, p: nat, s': State, q: nat, i: nat)
    requires ActStep(s, p, s') && q < |s.procs| && i < |s.procs| && PinAt(s, q, i) && PinAt(s, p, i) && RunAt(s, p)
    ensures q < |s'.procs| && i < |s'.procs| && PinAt(s', q, i)
  {
  }

  lemma LockRunAt(s: State, p: nat, s': State, q: nat)
    requires ActStep(s, p, s') && q < |s.procs| && RunAt(s, q) && RunAt(s, p) && !Scanning(s.procs[p].pc)
    ensures q < |s'.procs| && RunAt(s', q)
  {
  }

  lemma ScanRunAt(s: State, p: nat, s': State, q: nat)
    requires ActStep(s, p, s') && q < |s.procs| && RunAt(s, q) && RunAt(s, p) && Scanning(s.procs[p].pc)
    ensures q < |s'.procs| && RunAt(s', q)
  {
  }

  lemma ActHoldAt(s: State, p: nat, s': State, q: nat, l: nat)
    requires ActStep(s, p, s') && q < |s.procs| && l < |s.locks| && HoldAt(s, q, l) && HoldAt(s, p, l) && PcAt(s, p)
    ensures q < |s'.procs| && l < |s'.locks| && HoldAt(s', q, l)
  {
  }

  lemma ActOwnedAt(s: State, p: nat, s': State, l: nat)
    requires ActStep(s, p, s') && l < |s.locks| && OwnedAt(s, l)
    ensures l < |s'.locks| && OwnedAt(s', l)
  {
  }

  lemma ActPcAt(s: State, p: nat, s': State, q: nat)
    requires ActStep(s, p, s') && q < |s.procs| && PcAt(s, q) && PcAt(s, p)
    requires s.procs[p].pc.Take? || s.procs[p].pc.RelClear? ==>
      (var l := s.procs[p].pc.l; Spinning(s.procs[q].pc, l) ==> p == q)
    ensures q < |s'.procs| && PcAt(s', q)
  {
  }

  lemma LockWakeAt(s: State, p: nat, s': State, q: nat, l: nat)
    requires ActStep(s, p, s') && q < |s.procs| && l < |s.locks| && WakeAt(s, q, l) && SpinAt(s, p, l)
    requires SpinAt(s, q, l)
    requires RunAt(s, p) && RunAt(s, q) && PcAt(s, p) && PinAt(s, q, q) && PinAt(s, p, q) && !Scanning(s.procs[p].pc)
    ensures q < |s'.procs| && l < |s'.locks| && WakeAt(s', q, l)
  {
  }

  lemma ScanWakeAt(s: State, p: nat, s': State, q: nat, l: nat)
    requires ActStep(s, p, s') && q < |s.procs| && l < |s.locks| && WakeAt(s, q, l) && SpinAt(s, p, l)
    requires SpinAt(s, q, l)
    requires RunAt(s, p) && RunAt(s, q) && PcAt(s, p) && PinAt(s, q, q) && PinAt(s, p, q) && Scanning(s.procs[p].pc)
    ensures q < |s'.procs| && l < |s'.locks| && WakeAt(s', q, l)
  {
  }

  lemma ActKeeps(s: State, p: nat, s': State)
    requires Inv(s) && ActStep(s, p, s')
    ensures Inv(s')
  {
    hide Inv, ActStep, SpinAt, PinAt, RunAt, HoldAt, PcAt, WakeAt, OwnedAt;
    ActSizes(s, p, s');
    forall q: nat, l: nat | q < |s'.procs| && l < |s'.locks|
      ensures SpinAt(s', q, l) && HoldAt(s', q, l) && WakeAt(s', q, l)
    {
      WakeFacts(s, p, q, l);
      ActSpinAt(s, p, s', q, l);
      ActHoldAt(s, p, s', q, l);
      if Scanning(s.procs[p].pc) { ScanWakeAt(s, p, s', q, l); } else { LockWakeAt(s, p, s', q, l); }
    }
    forall q: nat | q < |s'.procs| ensures RunAt(s', q) && PcAt(s', q) {
      ProcFacts(s, p, q);
      if Scanning(s.procs[p].pc) { ScanRunAt(s, p, s', q); } else { LockRunAt(s, p, s', q); }
      var pc := s.procs[p].pc;
      if pc.Take? || pc.RelClear? {
        OneSpinner(s, p, q, pc.l);
      }
      ActPcAt(s, p, s', q);
    }
    forall q: nat, i: nat | q < |s'.procs| && i < |s'.procs| ensures PinAt(s', q, i) {
      ProcFacts(s, p, q);
      ActPinAt(s, p, s', q, i);
    }
    forall l: nat | l < |s'.locks| ensures OwnedAt(s', l) {
      Owned(s, l);
      ActOwnedAt(s, p, s', l);
    }
    IsInv(s');
  }

  lemma ActSizes(s: State, p: nat, s': State)
    requires ActStep(s, p, s')
    ensures |s'.procs| == |s.procs| && |s'.locks| == |s.locks| && p < |s.procs|
    ensures (s.procs[p].pc.Take? || s.procs[p].pc.RelClear?) ==> s.procs[p].pc.l < |s.locks|
  {
  }

  /** Two processes inside one spinlock's section are one. */
  lemma OneSpinner(s: State, p: nat, q: nat, l: nat)
    requires Inv(s) && p < |s.procs| && q < |s.procs| && l < |s.locks|
    ensures Spinning(s.procs[p].pc, l) && Spinning(s.procs[q].pc, l) ==> p == q
  {
    assert SpinAt(s, p, l) && SpinAt(s, q, l);
  }

  lemma WakeFacts(s: State, p: nat, q: nat, l: nat)
    requires Inv(s) && p < |s.procs| && q < |s.procs| && l < |s.locks|
    ensures WakeAt(s, q, l) && HoldAt(s, q, l) && SpinAt(s, p, l) && SpinAt(s, q, l) && RunAt(s, p) && RunAt(s, q)
    ensures PcAt(s, p)
    ensures HoldAt(s, p, l) && PinAt(s, q, q) && PinAt(s, p, q)
  {
  }

  /** The steps of callers, the scheduler and the timer: one process's record changes, and no lock. */
  lemma OtherStep(s: State, e: Event, s': State)
    requires Inv(s) && Next(s, e, s') && !e.DoAct?
    ensures Inv(s')
  {
    hide Inv, Next, SpinAt, PinAt, RunAt, HoldAt, PcAt, WakeAt, OwnedAt;
    var p := e.p;
    OtherSizes(s, e, s');
    forall q: nat, l: nat | q < |s'.procs| && l < |s'.locks|
      ensures SpinAt(s', q, l) && HoldAt(s', q, l) && WakeAt(s', q, l)
    {
      WakeFacts(s, p, q, l);
      OtherLockAt(s, e, s', q, l);
    }
    forall q: nat | q < |s'.procs| ensures RunAt(s', q) && PcAt(s', q) {
      ProcFacts(s, p, q);
      OtherProcAt(s, e, s', q);
    }
    forall q: nat, i: nat | q < |s'.procs| && i < |s'.procs| ensures PinAt(s', q, i) {
      ProcFacts(s, p, q);
      OtherPinAt(s, e, s', q, i);
    }
    forall l: nat | l < |s'.locks| ensures OwnedAt(s', l) {
      Owned(s, l);
      OtherOwnedAt(s, e, s', l);
    }
    IsInv(s');
  }

  lemma OtherSizes(s: State, e: Event, s': State)
    requires Next(s, e, s') && !e.DoAct?
    ensures e.p < |s.procs| == |s'.procs| && |s'.locks| == |s.locks|
  {
    hide Act;
  }

  lemma OtherLockAt(s: State, e: Event, s': State, q: nat, l: nat)
    requires Next(s, e, s') && !e.DoAct? && q < |s.procs| && l < |s.locks|
    requires WakeAt(s, q, l) && HoldAt(s, q, l) && SpinAt(s, q, l) && RunAt(s, q) && SpinAt(s, e.p, l)
    ensures q < |s'.procs| && l < |s'.locks| && SpinAt(s', q, l) && HoldAt(s', q, l) && WakeAt(s', q, l)
  {
    hide Act;
  }

  lemma OtherProcAt(s: State, e: Event, s': State, q: nat)
    requires Next(s, e, s') && !e.DoAct? && q < |s.procs| && RunAt(s, q) && PcAt(s, q)
    ensures q < |s'.procs| && RunAt(s', q) && PcAt(s', q)
  {
    hide Act;
  }

  lemma OtherPinAt(s: State, e: Event, s': State, q: nat, i: nat)
    requires Next(s, e, s') && !e.DoAct? && q < |s.procs| && i < |s.procs| && PinAt(s, q, i) && PinAt(s, e.p, i)
    requires RunAt(s, e.p) && PinAt(s, q, e.p)
    ensures q < |s'.procs| && i < |s'.procs| && PinAt(s', q, i)
  {
    hide Act;
  }

  lemma OtherOwnedAt(s: State, e: Event, s': State, l: nat)
    requires Next(s, e, s') && !e.DoAct? && l < |s.locks| && OwnedAt(s, l)
    ensures l < |s'.locks| && OwnedAt(s', l)
  {
    hide Act;
  }

  lemma Owned(s: State, l: nat)
    requires Inv(s) && l < |s.locks|
    ensures OwnedAt(s, l)
  {
  }

  lemma IsInv(s: State)
    requires SpinOk(s) && PinOk(s) && RunOk(s) && HoldOk(s) && WakeOk(s)
    ensures Inv(s)
  {
  }

  lemma ProcFacts(s: State, p: nat, q: nat)
    requires Inv(s) && p < |s.procs| && q < |s.procs|
    ensures RunAt(s, p) && RunAt(s, q) && PcAt(s, p) && PcAt(s, q)
    ensures forall i: nat | i < |s.procs| :: PinAt(s, p, i) && PinAt(s, q, i)
  {
  }

  // ---------- runs

  ghost predicate Run(ts: seq<State>, es: seq<Event>) {
    |ts| == |es| + 1 && Boot(ts[0]) && forall n: nat | n < |es| :: Next(ts[n], es[n], ts[n + 1])
  }

  lemma {:induction false} RunInv(ts: seq<State>, es: seq<Event>, n: nat)
    requires Run(ts, es) && n <= |es|
    ensures Inv(ts[n])
  {
    hide Inv, Next;
    if n == 0 {
      BootInv(ts[0]);
    } else {
      RunInv(ts, es, n - 1);
      var s, e, s' := ts[n - 1], es[n - 1], ts[n - 1 + 1];
      if e.DoAct? {
        ActOf(s, e, s');
        ActKeeps(s, e.p, s');
      } else {
        OtherStep(s, e, s');
      }
    }
  }

  lemma ActOf(s: State, e: Event, s': State)
    requires Next(s, e, s') && e.DoAct?
    ensures ActStep(s, e.p, s')
  {
  }

  /** At most one process holds a sleep lock, it is the one whose pid the lock records, and the lock is taken exactly
      when some process holds it. */
  lemma MutualExclusion(ts: seq<State>, es: seq<Event>, n: nat, l: nat)
    requires Run(ts, es) && n <= |es| && l < |ts[n].locks|
    ensures forall p: nat | p < |ts[n].procs| && l in ts[n].procs[p].hold ::
        ts[n].locks[l].locked && ts[n].locks[l].pid == p
    ensures ts[n].locks[l].locked <==> exists p: nat :: p < |ts[n].procs| && l in ts[n].procs[p].hold
  {
    hide Next;
    RunInv(ts, es, n);
    var s := ts[n];
    assert OwnedAt(s, l);
    if s.locks[l].locked {
      assert HoldAt(s, s.locks[l].pid, l);
    }
    forall p: nat | p < |s.procs| && l in s.procs[p].hold ensures s.locks[l].locked && s.locks[l].pid == p {
      assert HoldAt(s, p, l);
    }
  }

  /** No lost wakeup: whenever a lock's spinlock is free and the lock is not taken, no process is asleep on it or past
      the point of committing to sleep on it. */
  lemma NoLostWakeup(ts: seq<State>, es: seq<Event>, n: nat, p: nat, l: nat)
    requires Run(ts, es) && n <= |es| && p < |ts[n].procs| && l < |ts[n].locks|
    requires ts[n].locks[l].spin.None? && !ts[n].locks[l].locked
    ensures !(ts[n].procs[p].run.Sleeping? && ts[n].procs[p].chan == Some(l))
    ensures !Committed(ts[n].procs[p], l)
  {
    hide Next;
    RunInv(ts, es, n);
    assert WakeAt(ts[n], p, l) && RunAt(ts[n], p);
  }

  /** A process that calls sched holds its own lock and no other spinlock, as sched demands. */
  lemma SchedAlone(ts: seq<State>, es: seq<Event>, n: nat, p: nat, l: nat, i: nat)
    requires Run(ts, es) && n <= |es| && p < |ts[n].procs| && l < |ts[n].locks| && i < |ts[n].procs|
    requires ts[n].procs[p].pc.SleepSet?
    ensures ts[n].locks[l].spin != Some(p) && (ts[n].procs[i].plock == By(p) <==> i == p)
  {
    hide Next;
    RunInv(ts, es, n);
    assert SpinAt(ts[n], p, l) && PinAt(ts[n], p, i);
  }
}
