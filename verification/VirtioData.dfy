/** What the disk requests of Virtio do to buffers and blocks: each does what virtio_disk_rw was asked for, by the time
    its caller sees it finished. */
module VirtioData {
  import opened Options
  import opened Blocks
  import opened Virtio

  // ---------- what every step keeps

  /** A pending request's descriptors and header tell the device what was asked for. */
  ghost predicate DescOk(s: State, h: nat)
    requires h in s.reqs
  {
    var r := s.reqs[h];
    && Sizes(s) && h < NUM && r.c1 < NUM && r.c2 < NUM
    && s.desc[h] == Desc(OpsAt(h), 16, false, true, r.c1)
    && s.desc[r.c1] == Desc(DataOf(r.b), BSIZE, !r.write, true, r.c2)
    && s.desc[r.c2] == Desc(StatusAt(h), 1, true, false, 0)
    && s.ops[h] == Header(r.write, 2 * r.block)
  }

  predicate Completed(s: State, h: nat)
    requires h in s.reqs
  {
    s.reqs[h].phase.Used? || s.reqs[h].phase.Done?
  }

  /** Until the device has finished it, a request has moved nothing; then, unless there was an error, it has moved what
      was in the buffer to the block, or what was in the block to the buffer. */
  ghost predicate MovedOk(s: State, h: nat)
    requires h in s.reqs && h < |s.info|
  {
    var r := s.reqs[h];
    if !Completed(s, h) then Find(s.mem, r.b) == Some(r.data) && Find(s.disk, r.block) == r.before
    else
      && (r.phase.Done? ==> s.info[h].status == 0)
      && (s.info[h].status == 0 ==>
            && r.before.Some?
            && Find(s.mem, r.b) == (if r.write then Some(r.data) else r.before)
            && Find(s.disk, r.block) == (if r.write then Some(r.data) else r.before))
  }

  ghost predicate DataAt(s: State, h: nat)
    requires h in s.reqs
  {
    DescOk(s, h) && MovedOk(s, h)
  }

  ghost predicate DataInv(s: State) {
    (forall h | h in s.reqs :: DataAt(s, h)) && OneEach(s)
  }

  ghost predicate OneEach(s: State) {
    forall g, h | g in s.reqs && h in s.reqs && s.reqs[g].block == s.reqs[h].block :: g == h
  }

  /** A request goes on to its next phase, and no data moves. */
  ghost predicate Onward(s: State, s': State, h: nat, ph: Phase) {
    && Sizes(s) && Sizes(s') && Rephased(s, s', h, ph) && h < NUM
    && s'.mem == s.mem && s'.disk == s.disk && s'.info == s.info && s'.ops == s.ops
    && ((ph.Taken? && s.reqs[h].phase.Queued?) || (ph.Done? && s.reqs[h].phase.Used? && s.info[h].status == 0))
  }

  lemma OnwardAt(s: State, s': State, h: nat, ph: Phase, g: nat)
    requires Onward(s, s', h, ph) && g in s.reqs && DataAt(s, g)
    ensures g in s'.reqs && DataAt(s', g)
  {
  }

  lemma OnwardData(s: State, s': State, h: nat, ph: Phase)
    requires Onward(s, s', h, ph) && DataInv(s)
    ensures DataInv(s')
  {
    assert OneEach(s');
    hide DataAt, Onward, OneEach;
    assert s'.reqs.Keys == s.reqs.Keys by { OnwardKeys(s, s', h, ph); }
    forall g | g in s'.reqs ensures DataAt(s', g) { OnwardAt(s, s', h, ph, g); }
  }

  lemma OnwardKeys(s: State, s': State, h: nat, ph: Phase)
    requires Onward(s, s', h, ph)
    ensures s'.reqs.Keys == s.reqs.Keys
  {
  }

  // ---------- every step keeps it

  lemma SubmitOld(s: State, b: nat, block: nat, write: bool, i0: nat, i1: nat, i2: nat, s': State, h: nat)
    requires Inv(s) && Submit(s, b, block, write, i0, i1, i2, s') && h in s.reqs && DataAt(s, h)
    ensures h in s'.reqs && DataAt(s', h)
  {
    Alloc3Free(s.free, i0, i1, i2);
    FreeUnowned(s, i0, h);
    FreeUnowned(s, i1, h);
    FreeUnowned(s, i2, h);
    hide Inv, Alloc3;
  }

  lemma SubmitNew(s: State, b: nat, block: nat, write: bool, i0: nat, i1: nat, i2: nat, s': State)
    requires Sizes(s) && Submit(s, b, block, write, i0, i1, i2, s')
    ensures i0 in s'.reqs && DataAt(s', i0)
  {
    Alloc3Free(s.free, i0, i1, i2);
    hide Alloc3;
  }

  lemma SubmitData(s: State, b: nat, block: nat, write: bool, i0: nat, i1: nat, i2: nat, s': State)
    requires Inv(s) && DataInv(s) && Submit(s, b, block, write, i0, i1, i2, s')
    ensures DataInv(s')
  {
    assert Sizes(s);
    SubmitNew(s, b, block, write, i0, i1, i2, s');
    assert OneEach(s');
    hide Inv, DataAt, Alloc3, Chained, OneEach;
    forall h | h in s'.reqs ensures DataAt(s', h) {
      if h != i0 {
        SubmitOld(s, b, block, write, i0, i1, i2, s', h);
      }
    }
  }

  lemma IntrData(s: State, s': State)
    requires Inv(s) && DataInv(s) && Intr(s, s')
    ensures DataInv(s')
  {
    IntrEntry(s, s');
    assert Sizes(s);
    hide Inv, DataInv;
    OnwardData(s, s', s.used[s.usedIdx % NUM], Done);
  }

  lemma FinishData(s: State, h: nat, s': State)
    requires Inv(s) && DataInv(s) && Finish(s, h, s')
    ensures DataInv(s')
  {
    FinishDrops(s, h, s');
    forall g | g in s'.reqs ensures DataAt(s', g) {
      FinishDataAt(s, h, s', g);
    }
  }

  lemma FinishDataAt(s: State, h: nat, s': State, g: nat)
    requires Inv(s) && Finish(s, h, s') && g in s.reqs && g != h && DataAt(s, g)
    ensures g in s'.reqs && DataAt(s', g)
  {
    FinishFacts(s, h, s');
    ChainsApart(s, g, h);
    hide Inv, Mark3;
    FinishOther(s, h, s', g);
    FinishOther(s, h, s', s.reqs[g].c1);
    FinishOther(s, h, s', s.reqs[g].c2);
    FinishDrops(s, h, s');
  }

  lemma TakeData(s: State, s': State)
    requires Inv(s) && DataInv(s) && DevTake(s, s')
    ensures DataInv(s')
  {
    TakeEntry(s, s');
    var h := s.avail[s.d % NUM];
    assert Sizes(s) && h < NUM by { assert ChainOk(s, h); }
    TakeOnward(s, s', h);
    hide Inv, DataInv, DevTake;
    OnwardData(s, s', h, Taken);
  }

  lemma TakeOnward(s: State, s': State, h: nat)
    requires Sizes(s) && Sizes(s') && DevTake(s, s') && h < NUM && Rephased(s, s', h, Taken) && s.reqs[h].phase.Queued?
    ensures Onward(s, s', h, Taken)
  {
  }

  /** A whole block moves, in the direction asked for. */
  lemma CarriedIs(mem: map<nat, Block>, disk: map<nat, Block>, r: Header, b: nat, writes: bool, status: nat,
      junk: Block)
    requires b in mem && r.sector % 2 == 0 && r.sector / 2 in disk && writes == !r.write
    ensures Carried(mem, disk, r, b, BSIZE, writes, status, junk) ==
      if r.write then (mem, disk[r.sector / 2 := if status == 0 then mem[b] else junk])
      else (mem[b := if status == 0 then disk[r.sector / 2] else junk], disk)
  {
  }

  /** What the completion of request h does: its own status, buffer and block, and nothing else. */
  ghost predicate OwnEffect(s: State, s': State, h: nat, status: nat, junk: Block)
    requires h in s.reqs && h < |s.info|
  {
    var r := s.reqs[h];
    && s'.info == s.info[h := s.info[h].(status := status)]
    && (r.before.None? ==> status != 0)
    && (r.before.None? ==> s'.mem == s.mem && s'.disk == s.disk)
    && (r.before.Some? && r.write ==>
          s'.mem == s.mem && s'.disk == s.disk[r.block := if status == 0 then r.data else junk])
    && (r.before.Some? && !r.write ==>
          s'.disk == s.disk && s'.mem == s.mem[r.b := if status == 0 then r.before.value else junk])
  }

  lemma CompleteEffect(s: State, h: nat, status: nat, junk: Block, s': State)
    requires h in s.reqs && DataAt(s, h) && DevComplete(s, h, status, junk, s')
    ensures OwnEffect(s, s', h, status, junk)
  {
    var r := s.reqs[h];
    assert (2 * r.block) / 2 == r.block;
    if r.before.Some? {
      CarriedIs(s.mem, s.disk, s.ops[h], r.b, !r.write, status, junk);
    }
    hide Moved;
  }

  lemma CompleteDataAt(s: State, s': State, h: nat, status: nat, junk: Block, g: nat)
    requires Reported(s, s', h) && h < NUM && OwnEffect(s, s', h, status, junk) && g in s.reqs && DataAt(s, g)
    requires DataAt(s, h) && s'.ops == s.ops
    requires g != h ==> s.reqs[g].b != s.reqs[h].b && s.reqs[g].block != s.reqs[h].block
    ensures g in s'.reqs && DataAt(s', g)
  {
  }

  lemma CompleteData(s: State, h: nat, status: nat, junk: Block, s': State)
    requires Inv(s) && DataInv(s) && DevComplete(s, h, status, junk, s')
    ensures DataInv(s')
  {
    CompleteReports(s, h, status, junk, s');
    assert DataAt(s, h);
    CompleteEffect(s, h, status, junk, s');
    assert Buffers(s) && s'.ops == s.ops && h < NUM;
    assert OneEach(s');
    hide Inv, DevComplete, OwnEffect, DataAt;
    forall g | g in s'.reqs ensures DataAt(s', g) {
      CompleteDataAt(s, s', h, status, junk, g);
    }
  }

  lemma StoreData(s: State, b: nat, data: Block, s': State)
    requires Inv(s) && DataInv(s) && StoreStep(s, b, data, s')
    ensures DataInv(s')
  {
    hide Inv;
    forall g | g in s'.reqs ensures DataAt(s', g) {
      assert DataAt(s, g);
    }
  }

  lemma StepData(s: State, e: Event, s': State)
    requires Inv(s) && DataInv(s) && Next(s, e, s')
    ensures DataInv(s')
  {
    hide Inv, DataInv, Submit, Intr, Finish, DevTake, DevComplete, StoreStep;
    match e
    case DoSubmit(b, block, write, i0, i1, i2) => SubmitData(s, b, block, write, i0, i1, i2, s');
    case DoIntr => IntrData(s, s');
    case DoFinish(h) => FinishData(s, h, s');
    case DoTake => TakeData(s, s');
    case DoComplete(h, status, junk) => CompleteData(s, h, status, junk, s');
    case DoStore(b, data) => StoreData(s, b, data, s');
  }

  lemma {:induction false} RunData(ts: seq<State>, es: seq<Event>, n: nat)
    requires Run(ts, es) && n <= |es|
    ensures Inv(ts[n]) && DataInv(ts[n])
  {
    hide Inv, Next, DataAt;
    RunInv(ts, es, n);
    if n > 0 {
      RunData(ts, es, n - 1);
      StepData(ts[n - 1], es[n - 1], ts[n - 1 + 1]);
    }
  }

  // ---------- from submission to return

  /** The request as submitted, whatever its phase. */
  predicate SameRequest(r: Req, q: Req) {
    r == q.(phase := r.phase)
  }

  lemma RequestStays(s: State, e: Event, s': State, h: nat)
    requires Inv(s) && Next(s, e, s') && h in s.reqs && e != DoFinish(h)
    ensures h in s'.reqs && SameRequest(s'.reqs[h], s.reqs[h])
  {
    if e.DoSubmit? {
      Alloc3Free(s.free, e.i0, e.i1, e.i2);
      FreeUnowned(s, e.i0, h);
    }
    hide Inv, Alloc3, Carried;
  }

  /** Event k is a call of virtio_disk_rw and event n its return. */
  ghost predicate Served(ts: seq<State>, es: seq<Event>, k: nat, n: nat) {
    && Run(ts, es) && k < n < |es| && es[k].DoSubmit? && es[n] == DoFinish(es[k].i0)
    && forall j: nat | k < j < n :: es[j] != DoFinish(es[k].i0)
  }

  lemma Submitted(s: State, e: Event, s': State)
    requires Next(s, e, s') && e.DoSubmit?
    ensures e.b in s.mem && e.i0 in s'.reqs
    ensures var r := s'.reqs[e.i0];
      && r.b == e.b && r.block == e.block && r.write == e.write
      && r.data == s.mem[e.b] && r.before == Find(s.disk, e.block)
  {
  }

  lemma {:induction false} Pending(ts: seq<State>, es: seq<Event>, k: nat, n: nat, j: nat)
    requires Served(ts, es, k, n) && k < j <= n
    ensures es[k].i0 in ts[k + 1].reqs && es[k].i0 in ts[j].reqs
    ensures SameRequest(ts[j].reqs[es[k].i0], ts[k + 1].reqs[es[k].i0])
    decreases j
  {
    hide Next, Inv;
    Submitted(ts[k], es[k], ts[k + 1]);
    if k + 1 < j {
      Pending(ts, es, k, n, j - 1);
      RunInv(ts, es, j - 1);
      RequestStays(ts[j - 1], es[j - 1], ts[j - 1 + 1], es[k].i0);
    }
  }

  lemma FinishedMoved(s: State, h: nat, s': State)
    requires Inv(s) && DataInv(s) && Finish(s, h, s')
    ensures h in s.reqs && s.reqs[h].before.Some?
    ensures var r := s.reqs[h]; Find(s.mem, r.b) == Find(s.disk, r.block) == if r.write then Some(r.data) else r.before
  {
    FinishFacts(s, h, s');
    hide Inv;
    assert DataAt(s, h);
  }

  /** When virtio_disk_rw returns: a write has put what the buffer held at the call into its block and left the buffer
      alone; a read has put what the block held at the call, and still holds, into the buffer. */
  lemma IoDone(ts: seq<State>, es: seq<Event>, k: nat, n: nat)
    requires Served(ts, es, k, n)
    ensures var b, block := es[k].b, es[k].block;
      && b in ts[k].mem && block in ts[k].disk && b in ts[n].mem && block in ts[n].disk
      && (es[k].write ==> ts[n].disk[block] == ts[k].mem[b] && ts[n].mem[b] == ts[k].mem[b])
      && (!es[k].write ==> ts[n].mem[b] == ts[k].disk[block] && ts[n].disk[block] == ts[k].disk[block])
  {
    hide Inv, DataInv;
    Submitted(ts[k], es[k], ts[k + 1]);
    Pending(ts, es, k, n, n);
    RunData(ts, es, n);
    assert Next(ts[n], es[n], ts[n + 1]);
    FinishedMoved(ts[n], es[k].i0, ts[n + 1]);
  }

  /** Nothing else is touched: a block changes only when a write to it completes, a buffer only when its holder stores
      to it or a read into it completes. */
  lemma OnlyOwn(ts: seq<State>, es: seq<Event>, n: nat, x: nat)
    requires Run(ts, es) && n < |es|
    ensures Find(ts[n + 1].disk, x) != Find(ts[n].disk, x) ==>
      && es[n].DoComplete? && es[n].h in ts[n].reqs
      && ts[n].reqs[es[n].h].block == x && ts[n].reqs[es[n].h].write
    ensures Find(ts[n + 1].mem, x) != Find(ts[n].mem, x) ==>
      || (es[n].DoStore? && es[n].b == x)
      || (es[n].DoComplete? && es[n].h in ts[n].reqs
          && ts[n].reqs[es[n].h].b == x && !ts[n].reqs[es[n].h].write)
  {
    RunData(ts, es, n);
    var s, e, s' := ts[n], es[n], ts[n + 1];
    assert Next(s, e, s');
    hide Run, Inv;
    if e.DoComplete? {
      assert DataAt(s, e.h);
      CompleteEffect(s, e.h, e.status, e.junk, s');
      hide Next;
    } else {
      hide DataInv;
    }
  }

  // ---------- requests are served

  /** The first three descriptors of a queue that has all of them free. */
  lemma FirstThree(free: seq<bool>)
    requires |free| == NUM && forall i: nat | i < NUM :: free[i]
    ensures Alloc3(free, 0, 1, 2)
  {
  }

  lemma CanSubmit(s: State, b: nat, block: nat, write: bool) returns (s': State)
    requires Boot(s) && b in s.mem
    ensures Next(s, DoSubmit(b, block, write, 0, 1, 2), s')
  {
    FirstThree(s.free);
    hide Alloc3;
    s' := s.(free := s.free[0 := false][1 := false][2 := false], desc := Chained(s.desc, 0, 1, 2, b, write),
             info := s.info[0 := Info(Some(b), 255)], ops := s.ops[0 := Header(write, block * (BSIZE / 512))],
             busy := s.busy + {b}, avail := s.avail[0 := 0], availIdx := 1,
             reqs := s.reqs[0 := Req(b, block, write, s.mem[b], Find(s.disk, block), 1, 2, Queued(0))], a := 1,
             own := s.own[0 := Some(0)][1 := Some(0)][2 := Some(0)]);
  }

  /** The state of the queue while request 0 is the only one. */
  ghost predicate Alone(s: State, ph: Phase) {
    && Inv(s) && DataInv(s) && s.reqs.Keys == {0} && s.reqs[0].phase == ph
  }

  lemma CanTake(s: State) returns (s': State)
    requires Alone(s, Queued(0)) && s.d == 0 && s.a == 1 && s.avail[0] == 0
    ensures Next(s, DoTake, s') && s'.reqs == s.reqs[0 := s.reqs[0].(phase := Taken)] && s'.info == s.info
    ensures s'.u == s.u && s'.r == s.r
  {
    hide DataInv, Chains, Slots, Rings, Buffers;
    s' := s.(dev := 1, d := 1, reqs := s.reqs[0 := s.reqs[0].(phase := Taken)]);
  }

  lemma CanComplete(s: State, junk: Block) returns (s': State)
    requires Alone(s, Taken) && s.reqs[0].block in s.disk
    ensures Next(s, DoComplete(0, 0, junk), s') && s'.reqs == s.reqs[0 := s.reqs[0].(phase := Used(s.u))]
    ensures |s'.info| > 0 && s'.info[0].status == 0 && s'.u == s.u + 1 && s'.r == s.r
  {
    assert DataAt(s, 0);
    assert Sizes(s);
    hide Inv, DataInv, Carried;
    var r := s.reqs[0];
    var (mem, disk) := Carried(s.mem, s.disk, s.ops[0], r.b, BSIZE, !r.write, 0, junk);
    s' := s.(info := s.info[0 := s.info[0].(status := 0)], mem := mem, disk := disk,
             used := s.used[s.usedEnd % NUM := 0], usedEnd := (s.usedEnd + 1) % WRAP, u := s.u + 1,
             reqs := s.reqs[0 := r.(phase := Used(s.u))]);
    assert (2 * r.block) / 2 == r.block;
  }

  lemma CanIntr(s: State) returns (s': State)
    requires Alone(s, Used(s.r)) && s.u == s.r + 1 && s.info[0].status == 0
    ensures Next(s, DoIntr, s') && s'.reqs == s.reqs[0 := s.reqs[0].(phase := Virtio.Done)]
  {
    assert ChainOk(s, 0) && UsedAt(s, s.r);
    WrapNum(s.r);
    assert Indices(s) && Sizes(s);
    hide Inv, DataInv;
    s' := s.(busy := s.busy - {s.reqs[0].b}, usedIdx := (s.usedIdx + 1) % WRAP,
             reqs := s.reqs[0 := s.reqs[0].(phase := Virtio.Done)], r := s.r + 1);
  }

  lemma CanFinish(s: State) returns (s': State)
    requires Alone(s, Virtio.Done)
    ensures Next(s, DoFinish(0), s')
  {
    assert ChainOk(s, 0) && Sizes(s);
    hide Inv, DataInv, Mark3;
    var c1 := s.desc[0].next;
    var c2 := s.desc[c1].next;
    s' := s.(free := Mark3(s.free, 0, c1, c2, true), desc := Mark3(s.desc, 0, c1, c2, CLEARED),
             info := s.info[0 := s.info[0].(b := None)], reqs := s.reqs - {0}, own := Mark3(s.own, 0, c1, c2, None));
  }

  /** From any state after start-up, any request for a block that the device has can be served. */
  lemma SomeServed(s: State, b: nat, block: nat, write: bool) returns (ts: seq<State>, es: seq<Event>)
    requires Boot(s) && b in s.mem && block in s.disk
    ensures Served(ts, es, 0, 4) && ts[0] == s && es[0] == DoSubmit(b, block, write, 0, 1, 2)
  {
    hide Next, Inv, DataInv;
    var s1 := CanSubmit(s, b, block, write);
    BootInv(s);
    BootData(s);
    StepKeeps(s, DoSubmit(b, block, write, 0, 1, 2), s1);
    StepData(s, DoSubmit(b, block, write, 0, 1, 2), s1);
    SubmitFacts(s, b, block, write, s1);
    var s2 := CanTake(s1);
    StepKeeps(s1, DoTake, s2);
    StepData(s1, DoTake, s2);
    TakenDisk(s1, s2);
    var junk := ZeroBlock();
    var s3 := CanComplete(s2, junk);
    StepKeeps(s2, DoComplete(0, 0, junk), s3);
    StepData(s2, DoComplete(0, 0, junk), s3);
    var s4 := CanIntr(s3);
    StepKeeps(s3, DoIntr, s4);
    StepData(s3, DoIntr, s4);
    var s5 := CanFinish(s4);
    ts := [s, s1, s2, s3, s4, s5];
    es := [DoSubmit(b, block, write, 0, 1, 2), DoTake, DoComplete(0, 0, junk), DoIntr, DoFinish(0)];
  }

  lemma BootData(s: State)
    requires Boot(s)
    ensures DataInv(s)
  {
  }

  lemma SubmitFacts(s: State, b: nat, block: nat, write: bool, s': State)
    requires Boot(s) && Next(s, DoSubmit(b, block, write, 0, 1, 2), s')
    ensures s'.reqs.Keys == {0} && s'.reqs[0].phase == Queued(0) && s'.reqs[0].block == block && s'.disk == s.disk
    ensures s'.d == 0 && s'.a == 1 && |s'.avail| > 0 && s'.avail[0] == 0 && s'.u == 0 && s'.r == 0
  {
  }

  lemma TakenDisk(s: State, s': State)
    requires Next(s, DoTake, s')
    ensures s'.disk == s.disk
  {
  }
}
