/** The file manager's semaphore protocol: any number of request threads on any number of files, interleaved at every
    access to shared state. */
module FileManager {
  import opened Options
  import opened Sets

  datatype Op = READ | WRITE | DELETE | OTHER

  datatype Pc =
    | Loop                                           // while (wait_time < patience_time)
    | R1 | R2 | R2Decline                            // wait lock; test is_deleted; post lock and decline
    | R3 | R4                                        // read_count++: load, store
    | R5 | R6 | R7                                   // read_count == 1?; wait delete_lock; post lock
    | Reading
    | R9 | R10 | R11                                 // wait lock; read_count--: load, store
    | R12 | R13 | R14                                // read_count == 0?; post delete_lock; post lock
    | W1 | W2 | W3 | W3Decline | W3Leave             // wait write_lock; wait lock; test; post lock; post write_lock
    | W4 | Writing                                   // post lock; then write and post write_lock
    | D1 | D2 | D3 | D4                              // trywait delete_lock; wait write_lock; wait lock; test
    | D4Decline | D4Leave | D4Out                    // post lock; post write_lock; post delete_lock
    | D5 | D6                                        // is_deleted = 1; post lock
    | Deleting | D8                                  // delete, post write_lock; post delete_lock
    | Retry                                          // sleep(1); wait_time++
    | Declined | Completed | Cancelled

  datatype Group = Nobody | Deleter(t: nat) | Readers

  datatype Thread = Thread(op: Op, f: nat, pc: Pc, tmp: int, wait: nat)

  datatype File = File(
    deleted: bool, count: int, lock: nat, writeLock: nat, deleteLock: nat,
    // history: who holds each semaphore, and how many DELETEs were taken up
    lby: Option<nat>, wby: Option<nat>, dby: Group, deletes: nat)

  datatype State = State(threads: seq<Thread>, files: seq<File>, patience: nat)

  function Start(op: Op): Pc {
    match op
    case READ => R1
    case WRITE => W1
    case DELETE => D1
    case OTHER => Retry
  }

  /** The next access of a READ thread t, on its own record and its file's; None while it waits. */
  function ReadStep(t: nat, x: Thread, k: File): Option<(Thread, File)> {
    match x.pc
    case R1 => if k.lock == 0 then None else Some((x.(pc := R2), k.(lock := k.lock - 1, lby := Some(t))))
    case R2 => Some((x.(pc := if k.deleted then R2Decline else R3), k))
    case R2Decline => Some((x.(pc := Declined), k.(lock := k.lock + 1, lby := None)))
    case R3 => Some((x.(pc := R4, tmp := k.count), k))
    case R4 => Some((x.(pc := R5), k.(count := x.tmp + 1)))
    case R5 => Some((x.(pc := if k.count == 1 then R6 else R7), k))
    case R6 => if k.deleteLock == 0 then None
      else Some((x.(pc := R7), k.(deleteLock := k.deleteLock - 1, dby := Readers)))
    case R7 => Some((x.(pc := Reading), k.(lock := k.lock + 1, lby := None)))
    case Reading => Some((x.(pc := R9), k))
    case R9 => if k.lock == 0 then None else Some((x.(pc := R10), k.(lock := k.lock - 1, lby := Some(t))))
    case R10 => Some((x.(pc := R11, tmp := k.count), k))
    case R11 => Some((x.(pc := R12), k.(count := x.tmp - 1)))
    case R12 => Some((x.(pc := if k.count == 0 then R13 else R14), k))
    case R13 => Some((x.(pc := R14), k.(deleteLock := k.deleteLock + 1, dby := Nobody)))
    case R14 => Some((x.(pc := Completed), k.(lock := k.lock + 1, lby := None)))
    case _ => None
  }

  function WriteStep(t: nat, x: Thread, k: File): Option<(Thread, File)> {
    match x.pc
    case W1 => if k.writeLock == 0 then None else Some((x.(pc := W2), k.(writeLock := k.writeLock - 1, wby := Some(t))))
    case W2 => if k.lock == 0 then None else Some((x.(pc := W3), k.(lock := k.lock - 1, lby := Some(t))))
    case W3 => Some((x.(pc := if k.deleted then W3Decline else W4), k))
    case W3Decline => Some((x.(pc := W3Leave), k.(lock := k.lock + 1, lby := None)))
    case W3Leave => Some((x.(pc := Declined), k.(writeLock := k.writeLock + 1, wby := None)))
    case W4 => Some((x.(pc := Writing), k.(lock := k.lock + 1, lby := None)))
    case Writing => Some((x.(pc := Completed), k.(writeLock := k.writeLock + 1, wby := None)))
    case _ => None
  }

  function DeleteStep(t: nat, x: Thread, k: File): Option<(Thread, File)> {
    match x.pc
    case D1 =>
      if k.deleteLock == 0 then Some((x.(pc := Retry), k))
      else Some((x.(pc := D2), k.(deleteLock := k.deleteLock - 1, dby := Deleter(t))))
    case D2 => if k.writeLock == 0 then None else Some((x.(pc := D3), k.(writeLock := k.writeLock - 1, wby := Some(t))))
    case D3 => if k.lock == 0 then None else Some((x.(pc := D4), k.(lock := k.lock - 1, lby := Some(t))))
    case D4 => Some((x.(pc := if k.deleted then D4Decline else D5), k))
    case D4Decline => Some((x.(pc := D4Leave), k.(lock := k.lock + 1, lby := None)))
    case D4Leave => Some((x.(pc := D4Out), k.(writeLock := k.writeLock + 1, wby := None)))
    case D4Out => Some((x.(pc := Declined), k.(deleteLock := k.deleteLock + 1, dby := Nobody)))
    case D5 => Some((x.(pc := D6), k.(deleted := true, deletes := k.deletes + 1)))
    case D6 => Some((x.(pc := Deleting), k.(lock := k.lock + 1, lby := None)))
    case Deleting => Some((x.(pc := D8), k.(writeLock := k.writeLock + 1, wby := None)))
    case D8 => Some((x.(pc := Completed), k.(deleteLock := k.deleteLock + 1, dby := Nobody)))
    case _ => None
  }

  function Step(t: nat, x: Thread, k: File, patience: nat): Option<(Thread, File)> {
    if x.pc.Loop? then Some((x.(pc := if x.wait < patience then Start(x.op) else Cancelled), k))
    else if x.pc.Retry? then Some((x.(pc := Loop, wait := x.wait + 1), k))
    else match x.op
      case READ => ReadStep(t, x, k)
      case WRITE => WriteStep(t, x, k)
      case DELETE => DeleteStep(t, x, k)
      case OTHER => None
  }

  ghost predicate Next(s: State, t: nat, s': State) {
    && t < |s.threads| && s.threads[t].f < |s.files|
    && var x := s.threads[t];
      var r := Step(t, x, s.files[x.f], s.patience);
      r.Some? && s' == s.(threads := s.threads[t := r.value.0], files := s.files[x.f := r.value.1])
  }

  /** init_files and the creation of the threads, for a limit of max_concurrent. */
  ghost predicate Boot(s: State, maxConcurrent: nat) {
    && (forall t: nat | t < |s.threads| :: s.threads[t].pc.Loop? && s.threads[t].f < |s.files|)
    && (forall f: nat | f < |s.files| :: s.files[f] == File(false, 0, maxConcurrent, 1, 1, None, None, Nobody, 0))
  }

  ghost predicate Run(ts: seq<State>, es: seq<nat>, maxConcurrent: nat) {
    |ts| == |es| + 1 && Boot(ts[0], maxConcurrent) && forall n: nat | n < |es| :: Next(ts[n], es[n], ts[n + 1])
  }

  // ---------- for every limit

  predicate HoldsWrite(pc: Pc) {
    pc.W2? || pc.W3? || pc.W3Decline? || pc.W3Leave? || pc.W4? || pc.Writing?
    || pc.D3? || pc.D4? || pc.D4Decline? || pc.D4Leave? || pc.D5? || pc.D6? || pc.Deleting?
  }

  /** write_lock has one holder at a time, and under it is_deleted stays what its holder saw. */
  predicate WriteOk(t: nat, x: Thread, k: File) {
    && (HoldsWrite(x.pc) <==> k.wby == Some(t))
    && (x.pc.W4? || x.pc.Writing? || x.pc.D5? ==> !k.deleted)
    && (x.pc.D6? || x.pc.Deleting? || x.pc.D8? ==> k.deleted)
  }

  predicate FileOk(k: File) {
    && k.writeLock == (if k.wby.None? then 1 else 0)
    && k.deletes == (if k.deleted then 1 else 0)
  }

  ghost predicate Inv(s: State) {
    && (forall t: nat | t < |s.threads| ::
          s.threads[t].f < |s.files| && WriteOk(t, s.threads[t], s.files[s.threads[t].f]))
    && (forall f: nat | f < |s.files| :: FileOk(s.files[f]))
  }

  lemma OwnWrite(t: nat, x: Thread, k: File, patience: nat)
    requires WriteOk(t, x, k) && FileOk(k) && Step(t, x, k, patience).Some?
    ensures var (x', k') := Step(t, x, k, patience).value;
      WriteOk(t, x', k') && FileOk(k') && x'.f == x.f && x'.op == x.op
  {
    ReadKeeps(t, x, k);
    WriteKeeps(t, x, k);
    DeleteKeeps(t, x, k);
    hide ReadStep, WriteStep, DeleteStep;
  }

  lemma ReadKeeps(t: nat, x: Thread, k: File)
    requires WriteOk(t, x, k) && FileOk(k)
    ensures var r := ReadStep(t, x, k);
      r.Some? ==> var (x', k') := r.value; WriteOk(t, x', k') && FileOk(k') && x'.f == x.f && x'.op == x.op
  {
  }

  lemma WriteKeeps(t: nat, x: Thread, k: File)
    requires WriteOk(t, x, k) && FileOk(k)
    ensures var r := WriteStep(t, x, k);
      r.Some? ==> var (x', k') := r.value; WriteOk(t, x', k') && FileOk(k') && x'.f == x.f && x'.op == x.op
  {
  }

  lemma DeleteKeeps(t: nat, x: Thread, k: File)
    requires WriteOk(t, x, k) && FileOk(k)
    ensures var r := DeleteStep(t, x, k);
      r.Some? ==> var (x', k') := r.value; WriteOk(t, x', k') && FileOk(k') && x'.f == x.f && x'.op == x.op
  {
  }

  lemma OtherWrite(t: nat, x: Thread, k: File, patience: nat, q: nat, y: Thread)
    requires WriteOk(t, x, k) && FileOk(k) && Step(t, x, k, patience).Some? && q != t && WriteOk(q, y, k)
    ensures WriteOk(q, y, Step(t, x, k, patience).value.1)
  {
  }

  lemma StepInv(s: State, t: nat, s': State)
    requires Inv(s) && Next(s, t, s')
    ensures Inv(s')
  {
    hide WriteOk, FileOk, Step;
    var x := s.threads[t];
    var k := s.files[x.f];
    OwnWrite(t, x, k, s.patience);
    forall q: nat | q < |s'.threads|
      ensures s'.threads[q].f < |s'.files| && WriteOk(q, s'.threads[q], s'.files[s'.threads[q].f])
    {
      if q != t && s.threads[q].f == x.f {
        OtherWrite(t, x, k, s.patience, q, s.threads[q]);
      }
    }
  }

  lemma {:induction false} RunInv(ts: seq<State>, es: seq<nat>, maxConcurrent: nat, n: nat)
    requires Run(ts, es, maxConcurrent) && n <= |es|
    ensures Inv(ts[n])
  {
    hide Inv, Next;
    if n == 0 {
      BootInv(ts[0], maxConcurrent);
    } else {
      RunInv(ts, es, maxConcurrent, n - 1);
      StepInv(ts[n - 1], es[n - 1], ts[n - 1 + 1]);
    }
  }

  lemma BootInv(s: State, maxConcurrent: nat)
    requires Boot(s, maxConcurrent)
    ensures Inv(s)
  {
  }

  /** On each file at most one WRITE or DELETE is in progress, whatever the limit. */
  lemma OneWriter(ts: seq<State>, es: seq<nat>, maxConcurrent: nat, n: nat, t: nat, q: nat)
    requires Run(ts, es, maxConcurrent) && n <= |es| && t < |ts[n].threads| && q < |ts[n].threads|
    requires ts[n].threads[t].f == ts[n].threads[q].f
    requires ts[n].threads[t].pc.Writing? || ts[n].threads[t].pc.Deleting?
    requires ts[n].threads[q].pc.Writing? || ts[n].threads[q].pc.Deleting?
    ensures t == q
  {
    hide Next;
    RunInv(ts, es, maxConcurrent, n);
  }

  /** On each file at most one DELETE is ever taken up, and no WRITE is in progress once it has been. */
  lemma OneDelete(ts: seq<State>, es: seq<nat>, maxConcurrent: nat, n: nat, t: nat, f: nat)
    requires Run(ts, es, maxConcurrent) && n <= |es| && t < |ts[n].threads| && f < |ts[n].files|
    ensures ts[n].files[f].deletes <= 1 && (ts[n].files[f].deletes == 1 <==> ts[n].files[f].deleted)
    ensures ts[n].threads[t].f == f && ts[n].threads[t].pc.Writing? ==> ts[n].files[f].deletes == 0
  {
    hide Next;
    RunInv(ts, es, maxConcurrent, n);
  }

  /** A deleted file stays deleted, so no WRITE is ever taken up after the DELETE. */
  lemma {:induction false} DeletedStays(ts: seq<State>, es: seq<nat>, maxConcurrent: nat, m: nat, n: nat, f: nat)
    requires Run(ts, es, maxConcurrent) && m <= n <= |es| && f < |ts[m].files| && ts[m].files[f].deleted
    ensures f < |ts[n].files| && ts[n].files[f].deleted
    decreases n
  {
    if m < n {
      DeletedStays(ts, es, maxConcurrent, m, n - 1, f);
      assert Next(ts[n - 1], es[n - 1], ts[n - 1 + 1]);
    }
  }

  // ---------- when max_concurrent is at most 1

  predicate HoldsLock(pc: Pc) {
    || pc.R2? || pc.R2Decline? || pc.R3? || pc.R4? || pc.R5? || pc.R6? || pc.R7?
    || pc.R10? || pc.R11? || pc.R12? || pc.R13?
    || pc.R14? || pc.W3? || pc.W3Decline? || pc.W4? || pc.D4? || pc.D4Decline? || pc.D5? || pc.D6?
  }

  predicate HoldsDelete(pc: Pc) {
    || pc.D2? || pc.D3? || pc.D4? || pc.D4Decline? || pc.D4Leave? || pc.D4Out?
    || pc.D5? || pc.D6? || pc.Deleting? || pc.D8?
  }

  /** Between the two changes of read_count. */
  predicate Counted(pc: Pc) {
    pc.R5? || pc.R6? || pc.R7? || pc.Reading? || pc.R9? || pc.R10? || pc.R11?
  }

  /** Found the file not deleted. */
  predicate Admitted(pc: Pc) {
    Counted(pc) || pc.R3? || pc.R4? || pc.R12? || pc.R13? || pc.R14?
  }

  /** Whether the readers hold delete_lock, seen by the holder of lock. */
  predicate Expected(pc: Pc, count: int) {
    if pc.R5? then count > 1 else if pc.R6? then false else if pc.R7? || pc.R12? || pc.R13? then true else count > 0
  }

  predicate SerialOk(t: nat, x: Thread, k: File) {
    && (HoldsLock(x.pc) <==> k.lby == Some(t))
    && (HoldsDelete(x.pc) <==> k.dby == Deleter(t))
    && (x.pc.R4? || x.pc.R11? ==> x.tmp == k.count)
    && (x.pc.R6? ==> k.count == 1) && (x.pc.R13? ==> k.count == 0)
    && (Admitted(x.pc) ==> !k.deleted)
    && (Counted(x.pc) ==> k.count >= 1)
    && (HoldsLock(x.pc) ==> (k.dby.Readers? <==> Expected(x.pc, k.count)))
  }

  predicate SerialFile(k: File, limit: nat) {
    && limit <= 1 && k.lock + (if k.lby.None? then 0 else 1) == limit
    && k.deleteLock == (if k.dby.Nobody? then 1 else 0)
    && (k.lby.None? ==> (k.dby.Readers? <==> k.count > 0))
    && k.count >= 0
  }

  /** What a step of t does to the count of readers. */
  function Change(x: Thread): int {
    if x.op.READ? && x.pc.R4? then 1 else if x.op.READ? && x.pc.R11? then -1 else 0
  }

  lemma ReadSerial(t: nat, x: Thread, k: File, limit: nat)
    requires SerialOk(t, x, k) && SerialFile(k, limit) && ReadStep(t, x, k).Some?
    ensures var (x', k') := ReadStep(t, x, k).value;
      && SerialOk(t, x', k') && SerialFile(k', limit)
      && k'.count == k.count + (if x.pc.R4? then 1 else if x.pc.R11? then -1 else 0)
      && (Counted(x'.pc) <==> (Counted(x.pc) && !x.pc.R11?) || x.pc.R4?)
  {
  }

  lemma WriteSerial(t: nat, x: Thread, k: File, limit: nat)
    requires SerialOk(t, x, k) && SerialFile(k, limit) && WriteStep(t, x, k).Some?
    ensures var (x', k') := WriteStep(t, x, k).value;
      SerialOk(t, x', k') && SerialFile(k', limit) && k'.count == k.count && !Counted(x'.pc) && !Counted(x.pc)
  {
  }

  lemma DeleteSerial(t: nat, x: Thread, k: File, limit: nat)
    requires SerialOk(t, x, k) && SerialFile(k, limit) && DeleteStep(t, x, k).Some?
    ensures var (x', k') := DeleteStep(t, x, k).value;
      SerialOk(t, x', k') && SerialFile(k', limit) && k'.count == k.count && !Counted(x'.pc) && !Counted(x.pc)
  {
  }

  lemma OwnSerial(t: nat, x: Thread, k: File, patience: nat, limit: nat)
    requires SerialOk(t, x, k) && SerialFile(k, limit) && Step(t, x, k, patience).Some?
    ensures var (x', k') := Step(t, x, k, patience).value;
      && SerialOk(t, x', k') && SerialFile(k', limit) && k'.count == k.count + Change(x)
      && (Counted(x'.pc) <==> if Change(x) == 1 then true else if Change(x) == -1 then false else Counted(x.pc))
  {
    if !x.pc.Loop? && !x.pc.Retry? {
      match x.op
      case READ => ReadSerial(t, x, k, limit);
      case WRITE => WriteSerial(t, x, k, limit);
      case DELETE => DeleteSerial(t, x, k, limit);
      case OTHER =>
    }
    hide ReadStep, WriteStep, DeleteStep, SerialFile;
  }

  /** Another thread on the same file is not disturbed; one that is counted keeps the count at 1 or more. */
  lemma OtherSerial(t: nat, x: Thread, k: File, patience: nat, q: nat, y: Thread, limit: nat)
    requires SerialOk(t, x, k) && SerialFile(k, limit) && Step(t, x, k, patience).Some? && q != t && SerialOk(q, y, k)
    requires Counted(y.pc) && x.op.READ? && x.pc.R11? ==> k.count >= 2
    ensures SerialOk(q, y, Step(t, x, k, patience).value.1)
  {
  }

  /** The threads counted on file f. */
  ghost function Crowd(s: State, f: nat): set<nat> {
    set t: nat | t < |s.threads| && s.threads[t].f == f && Counted(s.threads[t].pc)
  }

  ghost predicate SerialInv(s: State, limit: nat) {
    && (forall t: nat | t < |s.threads| ::
          s.threads[t].f < |s.files| && SerialOk(t, s.threads[t], s.files[s.threads[t].f]))
    && (forall f: nat | f < |s.files| :: SerialFile(s.files[f], limit) && s.files[f].count == |Crowd(s, f)|)
  }

  lemma StepCrowd(s: State, t: nat, s': State, f: nat, limit: nat)
    requires SerialInv(s, limit) && Next(s, t, s') && f < |s.files|
    ensures f < |s'.files| && s'.files[f].count == |Crowd(s', f)|
  {
    var x := s.threads[t];
    OwnSerial(t, x, s.files[x.f], s.patience, limit);
    StepThread(t, x, s.files[x.f], s.patience);
    hide Step, SerialOk, SerialFile, Counted;
    assert s.files[f].count == |Crowd(s, f)|;
    if f != x.f {
      assert Crowd(s', f) == Crowd(s, f);
    } else if Change(x) == 1 {
      assert Crowd(s', f) == Crowd(s, f) + {t};
      assert t !in Crowd(s, f) by { NotYet(x); }
    } else if Change(x) == -1 {
      assert Crowd(s', f) == Crowd(s, f) - {t};
      assert t in Crowd(s, f) by { Already(x); }
    } else {
      assert Crowd(s', f) == Crowd(s, f);
    }
  }

  lemma NotYet(x: Thread)
    ensures Change(x) == 1 ==> !Counted(x.pc)
  {
  }

  lemma Already(x: Thread)
    ensures Change(x) == -1 ==> Counted(x.pc)
  {
  }

  lemma StepThread(t: nat, x: Thread, k: File, patience: nat)
    ensures Step(t, x, k, patience).Some? ==> Step(t, x, k, patience).value.0.f == x.f
  {
  }

  /** Two counted threads make the count at least 2. */
  lemma TwoCounted(s: State, t: nat, q: nat, limit: nat)
    requires SerialInv(s, limit) && t < |s.threads| && q < |s.threads| && t != q && s.threads[t].f == s.threads[q].f
    requires Counted(s.threads[t].pc) && Counted(s.threads[q].pc)
    ensures s.threads[t].f < |s.files| && s.files[s.threads[t].f].count >= 2
  {
    var c := Crowd(s, s.threads[t].f);
    assert t in c && q in c;
    assert {t, q} <= c;
    Subset({t, q}, c);
  }

  lemma StepSerial(s: State, t: nat, s': State, limit: nat)
    requires SerialInv(s, limit) && Next(s, t, s')
    ensures SerialInv(s', limit)
  {
    hide SerialOk, SerialFile, Step, Crowd;
    var x := s.threads[t];
    var k := s.files[x.f];
    OwnSerial(t, x, k, s.patience, limit);
    StepThread(t, x, k, s.patience);
    forall q: nat | q < |s'.threads|
      ensures s'.threads[q].f < |s'.files| && SerialOk(q, s'.threads[q], s'.files[s'.threads[q].f])
    {
      if q != t && s.threads[q].f == x.f {
        if Counted(s.threads[q].pc) && x.pc.R11? {
          TwoCounted(s, t, q, limit);
        }
        OtherSerial(t, x, k, s.patience, q, s.threads[q], limit);
      }
    }
    forall f: nat | f < |s'.files| ensures SerialFile(s'.files[f], limit) && s'.files[f].count == |Crowd(s', f)| {
      StepCrowd(s, t, s', f, limit);
    }
  }

  lemma {:induction false} RunSerial(ts: seq<State>, es: seq<nat>, limit: nat, n: nat)
    requires Run(ts, es, limit) && limit <= 1 && n <= |es|
    ensures SerialInv(ts[n], limit)
  {
    hide SerialInv, Next;
    if n == 0 {
      BootSerial(ts[0], limit);
    } else {
      RunSerial(ts, es, limit, n - 1);
      StepSerial(ts[n - 1], es[n - 1], ts[n - 1 + 1], limit);
    }
  }

  lemma BootSerial(s: State, limit: nat)
    requires Boot(s, limit) && limit <= 1
    ensures SerialInv(s, limit)
  {
    assert forall f: nat :: Crowd(s, f) == {};
  }

  /** With a limit of 1, read_count is the number of admitted readers, and while there are any and lock is free,
      they hold delete_lock. */
  lemma CountIsReaders(ts: seq<State>, es: seq<nat>, limit: nat, n: nat, f: nat)
    requires Run(ts, es, limit) && limit <= 1 && n <= |es| && f < |ts[n].files|
    ensures ts[n].files[f].count == |Crowd(ts[n], f)|
    ensures ts[n].files[f].lock == limit && Crowd(ts[n], f) != {} ==> ts[n].files[f].deleteLock == 0
  {
    hide Next;
    RunSerial(ts, es, limit, n);
  }

  // ---------- readers and the DELETE

  /** Some READ is in progress on a file whose DELETE has been taken up. */
  ghost predicate ReadsDeleted(s: State) {
    exists t: nat :: t < |s.threads| && s.threads[t].f < |s.files| && ReadingDeleted(s, t)
  }

  ghost predicate ReadingDeleted(s: State, t: nat)
    requires t < |s.threads| && s.threads[t].f < |s.files|
  {
    s.threads[t].pc.Reading? && s.files[s.threads[t].f].deleted
  }

  /** With a limit of at most 1, no READ overlaps or follows a DELETE. */
  lemma NoReadAfterDelete(ts: seq<State>, es: seq<nat>, limit: nat, n: nat)
    requires Run(ts, es, limit) && limit <= 1 && n <= |es|
    ensures !ReadsDeleted(ts[n])
  {
    hide Next;
    RunSerial(ts, es, limit, n);
  }

  /** One step more. */
  lemma Extended(ts: seq<State>, es: seq<nat>, limit: nat, t: nat, s': State) returns (ts': seq<State>, es': seq<nat>)
    requires Run(ts, es, limit) && Next(ts[|es|], t, s')
    ensures Run(ts', es', limit) && |es'| == |es| + 1 && ts'[|es'|] == s'
  {
    hide Next, Boot;
    ts', es' := ts + [s'], es + [t];
  }

  /** A reader and a deleter of one file, with the given pcs and file record. */
  ghost function Pair(r: Pc, d: Pc, tmp: int, k: File): State {
    State([Thread(READ, 0, r, tmp, 1), Thread(DELETE, 0, d, 0, 1)], [k], 5)
  }

  /** The reader finds the file not deleted. */
  lemma ReaderAdmitted(limit: nat) returns (ts: seq<State>, es: seq<nat>)
    requires limit >= 2
    ensures Run(ts, es, limit) && ts[|es|] ==
      Pair(R3, Loop, 0, File(false, 0, limit - 1, 1, 1, Some(0), None, Nobody, 0))
  {
    ts, es := [Pair(Loop, Loop, 0, File(false, 0, limit, 1, 1, None, None, Nobody, 0))], [];
    assert Boot(ts[0], limit);
    ts, es := Extended(ts, es, limit, 0, Pair(R1, Loop, 0, File(false, 0, limit, 1, 1, None, None, Nobody, 0)));
    ts, es := Extended(ts, es, limit, 0, Pair(R2, Loop, 0, File(false, 0, limit - 1, 1, 1, Some(0), None, Nobody, 0)));
    ts, es := Extended(ts, es, limit, 0, Pair(R3, Loop, 0, File(false, 0, limit - 1, 1, 1, Some(0), None, Nobody, 0)));
  }

  /** The DELETE finds the same, although the reader has not let go of lock. */
  lemma DeleteStarts(limit: nat, ts0: seq<State>, es0: seq<nat>) returns (ts: seq<State>, es: seq<nat>)
    requires limit >= 2 && Run(ts0, es0, limit)
      && ts0[|es0|] == Pair(R3, Loop, 0, File(false, 0, limit - 1, 1, 1, Some(0), None, Nobody, 0))
    ensures Run(ts, es, limit) && ts[|es|] ==
      Pair(R3, D5, 0, File(false, 0, limit - 2, 0, 0, Some(1), Some(1), Deleter(1), 0))
  {
    ts, es := ts0, es0;
    ts, es := Extended(ts, es, limit, 1, Pair(R3, D1, 0, File(false, 0, limit - 1, 1, 1, Some(0), None, Nobody, 0)));
    ts, es := Extended(ts, es, limit, 1,
      Pair(R3, D2, 0, File(false, 0, limit - 1, 1, 0, Some(0), None, Deleter(1), 0)));
    ts, es := Extended(ts, es, limit, 1,
      Pair(R3, D3, 0, File(false, 0, limit - 1, 0, 0, Some(0), Some(1), Deleter(1), 0)));
    ts, es := Extended(ts, es, limit, 1,
      Pair(R3, D4, 0, File(false, 0, limit - 2, 0, 0, Some(1), Some(1), Deleter(1), 0)));
    ts, es := Extended(ts, es, limit, 1,
      Pair(R3, D5, 0, File(false, 0, limit - 2, 0, 0, Some(1), Some(1), Deleter(1), 0)));
  }

  /** The DELETE is taken up and completed. */
  lemma DeleteEnds(limit: nat, ts0: seq<State>, es0: seq<nat>) returns (ts: seq<State>, es: seq<nat>)
    requires limit >= 2 && Run(ts0, es0, limit)
      && ts0[|es0|] == Pair(R3, D5, 0, File(false, 0, limit - 2, 0, 0, Some(1), Some(1), Deleter(1), 0))
    ensures Run(ts, es, limit) && ts[|es|] ==
      Pair(R3, Completed, 0, File(true, 0, limit - 1, 1, 1, None, None, Nobody, 1))
  {
    ts, es := ts0, es0;
    ts, es := Extended(ts, es, limit, 1,
      Pair(R3, D6, 0, File(true, 0, limit - 2, 0, 0, Some(1), Some(1), Deleter(1), 1)));
    ts, es := Extended(ts, es, limit, 1,
      Pair(R3, Deleting, 0, File(true, 0, limit - 1, 0, 0, None, Some(1), Deleter(1), 1)));
    ts, es := Extended(ts, es, limit, 1, Pair(R3, D8, 0, File(true, 0, limit - 1, 1, 0, None, None, Deleter(1), 1)));
    ts, es := Extended(ts, es, limit, 1, Pair(R3, Completed, 0, File(true, 0, limit - 1, 1, 1, None, None, Nobody, 1)));
  }

  /** The READ is taken up. */
  lemma ReaderReads(limit: nat, ts0: seq<State>, es0: seq<nat>) returns (ts: seq<State>, es: seq<nat>)
    requires limit >= 2 && Run(ts0, es0, limit)
      && ts0[|es0|] == Pair(R3, Completed, 0, File(true, 0, limit - 1, 1, 1, None, None, Nobody, 1))
    ensures Run(ts, es, limit) && ts[|es|] ==
      Pair(Reading, Completed, 0, File(true, 1, limit, 1, 0, None, None, Readers, 1))
  {
    ts, es := ts0, es0;
    ts, es := Extended(ts, es, limit, 0, Pair(R4, Completed, 0, File(true, 0, limit - 1, 1, 1, None, None, Nobody, 1)));
    ts, es := Extended(ts, es, limit, 0, Pair(R5, Completed, 0, File(true, 1, limit - 1, 1, 1, None, None, Nobody, 1)));
    ts, es := Extended(ts, es, limit, 0, Pair(R6, Completed, 0, File(true, 1, limit - 1, 1, 1, None, None, Nobody, 1)));
    ts, es := Extended(ts, es, limit, 0,
      Pair(R7, Completed, 0, File(true, 1, limit - 1, 1, 0, None, None, Readers, 1)));
    ts, es := Extended(ts, es, limit, 0,
      Pair(Reading, Completed, 0, File(true, 1, limit, 1, 0, None, None, Readers, 1)));
  }

  /** With a limit of 2 or more, a READ can be taken up after the DELETE. */
  lemma ReadAfterDelete(limit: nat) returns (ts: seq<State>, es: seq<nat>)
    requires limit >= 2
    ensures Run(ts, es, limit) && ReadsDeleted(ts[|es|])
  {
    hide Run, Boot;
    ts, es := ReaderAdmitted(limit);
    ts, es := DeleteStarts(limit, ts, es);
    ts, es := DeleteEnds(limit, ts, es);
    ts, es := ReaderReads(limit, ts, es);
    assert ReadingDeleted(ts[|es|], 0);
  }

  /** No READ overlaps or follows a DELETE in any run if and only if the limit is at most 1. */
  lemma ReadSafetyExact(limit: nat)
    ensures (forall ts: seq<State>, es: seq<nat> | Run(ts, es, limit) :: !ReadsDeleted(ts[|es|])) <==> limit <= 1
  {
    hide Run, ReadsDeleted;
    if limit <= 1 {
      forall ts: seq<State>, es: seq<nat> | Run(ts, es, limit) ensures |ts| == |es| + 1 && !ReadsDeleted(ts[|es|]) {
        RunLength(ts, es, limit);
        NoReadAfterDelete(ts, es, limit, |es|);
      }
    } else {
      var ts, es := ReadAfterDelete(limit);
    }
  }

  lemma RunLength(ts: seq<State>, es: seq<nat>, limit: nat)
    requires Run(ts, es, limit)
    ensures |ts| == |es| + 1
  {
  }

  // ---------- answers

  /** Where a request tests is_deleted. */
  predicate AtTest(pc: Pc) { pc.R2? || pc.W3? || pc.D4? }

  /** On its way to being declined, or declined. */
  predicate Refusing(pc: Pc) {
    pc.R2Decline? || pc.W3Decline? || pc.W3Leave? || pc.D4Decline? || pc.D4Leave? || pc.D4Out? || pc.Declined?
  }

  /** Taken up, or completed. */
  predicate TakenUp(pc: Pc) {
    Admitted(pc) || pc.W4? || pc.Writing? || pc.D5? || pc.D6? || pc.Deleting? || pc.D8? || pc.Completed?
  }

  lemma StepAnswer(t: nat, x: Thread, k: File, patience: nat)
    requires Step(t, x, k, patience).Some?
    ensures var x' := Step(t, x, k, patience).value.0;
      && (Refusing(x'.pc) <==> if AtTest(x.pc) then k.deleted else Refusing(x.pc))
      && (TakenUp(x'.pc) <==> if AtTest(x.pc) then !k.deleted else TakenUp(x.pc))
  {
  }

  /** A request that was declined found its file deleted when it tested, and one that was taken up did not. */
  lemma {:induction false} Answered(ts: seq<State>, es: seq<nat>, limit: nat, n: nat, t: nat) returns (m: nat)
    requires Run(ts, es, limit) && n <= |es| && t < |ts[n].threads|
    requires Refusing(ts[n].threads[t].pc) || TakenUp(ts[n].threads[t].pc)
    ensures m < n && es[m] == t && t < |ts[m].threads| && AtTest(ts[m].threads[t].pc)
    ensures ts[m].threads[t].f == ts[n].threads[t].f < |ts[m].files|
    ensures ts[m].files[ts[m].threads[t].f].deleted <==> Refusing(ts[n].threads[t].pc)
    ensures ts[m].files[ts[m].threads[t].f].deleted <==> !TakenUp(ts[n].threads[t].pc)
    decreases n
  {
    hide AtTest, Step;
    if n == 0 {
      BootUnanswered(ts[0], limit, t);
    }
    var s, q := ts[n - 1], es[n - 1];
    assert Next(s, q, ts[n - 1 + 1]);
    var x := s.threads[q];
    StepAnswer(q, x, s.files[x.f], s.patience);
    StepThread(q, x, s.files[x.f], s.patience);
    hide Refusing, TakenUp;
    if q == t && AtTest(x.pc) {
      m := n - 1;
      Disjoint(ts[n].threads[t].pc);
    } else {
      m := Answered(ts, es, limit, n - 1, t);
    }
  }

  lemma Disjoint(pc: Pc)
    ensures !(Refusing(pc) && TakenUp(pc))
  {
  }

  lemma BootUnanswered(s: State, limit: nat, t: nat)
    requires Boot(s, limit) && t < |s.threads|
    ensures !Refusing(s.threads[t].pc) && !TakenUp(s.threads[t].pc)
  {
  }

  // ---------- waiting

  predicate Finished(pc: Pc) { pc.Declined? || pc.Completed? || pc.Cancelled? }

  /** The semaphore that the next access waits for is 0. */
  predicate Waits(pc: Pc, k: File) {
    || ((pc.R1? || pc.R9? || pc.W2? || pc.D3?) && k.lock == 0)
    || ((pc.W1? || pc.D2?) && k.writeLock == 0)
    || (pc.R6? && k.deleteLock == 0)
  }

  /** The pc belongs to the operation. */
  predicate InPlace(x: Thread) {
    || x.pc.Loop? || x.pc.Retry? || Finished(x.pc)
    || (x.op.READ? && (x.pc.R1? || x.pc.R2? || x.pc.R2Decline? || Admitted(x.pc)))
    || (x.op.WRITE? && (x.pc.W1? || HoldsWrite(x.pc)) && !HoldsDelete(x.pc))
    || (x.op.DELETE? && (x.pc.D1? || HoldsDelete(x.pc)))
  }

  /** What one access does: it waits only for a semaphore that is 0, keeps to its operation, and a new try costs a
      second. */
  predicate Proper(x: Thread, k: File, r: Option<(Thread, File)>) {
    && (r.None? <==> Finished(x.pc) || Waits(x.pc, k))
    && (r.Some? ==> InPlace(r.value.0) && r.value.0.wait == x.wait + Count(r.value.0.pc.Loop?))
  }

  lemma ReadProper(t: nat, x: Thread, k: File)
    requires InPlace(x) && x.op.READ? && !x.pc.Loop? && !x.pc.Retry?
    ensures Proper(x, k, ReadStep(t, x, k)) && (ReadStep(t, x, k).Some? ==> !ReadStep(t, x, k).value.0.pc.Cancelled?)
  {
  }

  lemma WriteProper(t: nat, x: Thread, k: File)
    requires InPlace(x) && x.op.WRITE? && !x.pc.Loop? && !x.pc.Retry?
    ensures Proper(x, k, WriteStep(t, x, k)) && (WriteStep(t, x, k).Some? ==> !WriteStep(t, x, k).value.0.pc.Cancelled?)
  {
  }

  lemma DeleteProper(t: nat, x: Thread, k: File)
    requires InPlace(x) && x.op.DELETE? && !x.pc.Loop? && !x.pc.Retry?
    ensures Proper(x, k, DeleteStep(t, x, k))
    ensures DeleteStep(t, x, k).Some? ==> !DeleteStep(t, x, k).value.0.pc.Cancelled?
  {
  }

  lemma StepInPlace(t: nat, x: Thread, k: File, patience: nat)
    requires InPlace(x)
    ensures var r := Step(t, x, k, patience);
      Proper(x, k, r) && (r.Some? && r.value.0.pc.Cancelled? ==> x.wait >= patience)
  {
    if !x.pc.Loop? && !x.pc.Retry? {
      hide ReadStep, WriteStep, DeleteStep, Proper;
      match x.op
      case READ => ReadProper(t, x, k);
      case WRITE => WriteProper(t, x, k);
      case DELETE => DeleteProper(t, x, k);
      case OTHER => OtherProper(x, k);
    }
  }

  lemma OtherProper(x: Thread, k: File)
    requires InPlace(x) && x.op.OTHER? && !x.pc.Loop? && !x.pc.Retry?
    ensures Proper(x, k, None)
  {
  }

  lemma {:induction false} RunInPlace(ts: seq<State>, es: seq<nat>, limit: nat, n: nat, t: nat)
    requires Run(ts, es, limit) && n <= |es| && t < |ts[n].threads|
    ensures InPlace(ts[n].threads[t]) && ts[n].threads[t].f < |ts[n].files|
    decreases n
  {
    hide InPlace, Step;
    if n == 0 {
      BootInPlace(ts[0], limit, t);
    } else {
      var s, q := ts[n - 1], es[n - 1];
      assert Next(s, q, ts[n - 1 + 1]);
      RunInPlace(ts, es, limit, n - 1, t);
      RunInPlace(ts, es, limit, n - 1, q);
      var x := s.threads[q];
      StepInPlace(q, x, s.files[x.f], s.patience);
      StepThread(q, x, s.files[x.f], s.patience);
    }
  }

  lemma BootInPlace(s: State, limit: nat, t: nat)
    requires Boot(s, limit) && t < |s.threads|
    ensures InPlace(s.threads[t]) && s.threads[t].f < |s.files|
  {
  }

  /** In every run, a request that is not finished can go on unless the semaphore it waits for is 0; each new try costs
      it a second, and it is cancelled only when its patience has run out. */
  lemma StuckOnlyWaiting(ts: seq<State>, es: seq<nat>, limit: nat, n: nat, t: nat)
    requires Run(ts, es, limit) && n <= |es| && t < |ts[n].threads|
    ensures var x := ts[n].threads[t];
      && x.f < |ts[n].files|
      && ((exists s' :: Next(ts[n], t, s')) <==> !Finished(x.pc) && !Waits(x.pc, ts[n].files[x.f]))
    ensures n < |es| && es[n] == t && t < |ts[n + 1].threads| ==>
      && (ts[n + 1].threads[t].pc.Cancelled? ==> ts[n].threads[t].wait >= ts[n].patience)
      && ts[n + 1].threads[t].wait == ts[n].threads[t].wait + Count(ts[n + 1].threads[t].pc.Loop?)
  {
    RunInPlace(ts, es, limit, n, t);
    var s := ts[n];
    var x := s.threads[t];
    StepInPlace(t, x, s.files[x.f], s.patience);
    if n < |es| {
      assert Next(s, es[n], ts[n + 1]);
    }
    hide Step, InPlace, Finished, Waits;
    var r := Step(t, x, s.files[x.f], s.patience);
    if r.Some? {
      var s' := s.(threads := s.threads[t := r.value.0], files := s.files[x.f := r.value.1]);
      assert Next(s, t, s');
    }
  }
}
