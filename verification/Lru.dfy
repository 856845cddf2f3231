/** Runs of the buffer cache operations of bio.c, with the time each buffer was last moved to
    the front of the list. */
module Lru {
  import opened Options
  import opened Blocks
  import opened Bio

  datatype Timed = Timed(c: Cache, stamp: seq<nat>, now: nat)

  datatype Op =
    | GetOp(dev: uint, blockno: uint)
    | HoldOp(i: nat, holder: Option<nat>)   // acquiresleep / releasesleep on a referenced buffer
    | FillOp(i: nat, data: Block)           // the disk read of bread, or a client's change
    | PutOp(i: nat)
    | PinOp(i: nat)
    | UnpinOp(i: nat)

  /** What the callers of bio.c observe: real devices, and references dropped only by their owners. */
  ghost predicate Allowed(c: Cache, op: Op)
    requires Wf(c)
  {
    match op
    case GetOp(dev, blockno) => dev != 0
    case HoldOp(i, _) => i < NBUF && c.slots[i].refcnt > 0
    case FillOp(i, _) => i < NBUF && c.slots[i].refcnt > 0
    case PutOp(i) => i < NBUF && c.slots[i].refcnt > 0 && (c.slots[i].refcnt == 1 ==> c.slots[i].holder == None)
    case PinOp(i) => i < NBUF && c.slots[i].refcnt > 0
    case UnpinOp(i) => i < NBUF && c.slots[i].refcnt > 0 && (c.slots[i].refcnt == 1 ==> c.slots[i].holder == None)
  }

  function Fill(c: Cache, i: nat, data: Block): Cache
    requires Wf(c) && i < NBUF
  {
    c.(slots := c.slots[i := c.slots[i].(valid := true, data := data)])
  }

  /** One operation; a bget that finds no buffer stops the kernel, so the run stays where it is. */
  ghost function Step(t: Timed, op: Op): Timed
    requires Wf(t.c) && |t.stamp| == NBUF && Allowed(t.c, op)
  {
    match op
    case GetOp(dev, blockno) =>
      var g := Get(t.c, dev, blockno);
      if g.None? then t else t.(c := g.value.0)
    case HoldOp(i, h) => t.(c := Hold(t.c, i, h))
    case FillOp(i, data) => t.(c := Fill(t.c, i, data))
    case PutOp(i) =>
      if t.c.slots[i].refcnt == 1 then Timed(Put(t.c, i), t.stamp[i := t.now], t.now + 1) else t.(c := Put(t.c, i))
    case PinOp(i) => t.(c := AddRef(t.c, i, 1))
    case UnpinOp(i) => t.(c := AddRef(t.c, i, -1))
  }

  /** The list is ordered by last move to the front, newest first. */
  ghost predicate TimedInv(t: Timed) {
    && CacheInv(t.c) && |t.stamp| == NBUF
    && (forall i | 0 <= i < NBUF :: t.stamp[i] < t.now)
    && Descending(t.c.order, t.stamp)
  }

  function Booted(): Timed {
    Timed(Cache(seq(NBUF, i => if 0 <= i < NBUF then NBUF - 1 - i else 0),
                seq(NBUF, _ => Slot(false, 0, 0, 0, None, ZeroBlock()))),
          seq(NBUF, i => if 0 <= i then i else 0), NBUF)
  }

  lemma BootedInv()
    ensures TimedInv(Booted())
  {
    var order := Booted().c.order;
    forall i | 0 <= i < NBUF ensures Pos(order, i) < |order| {
      assert order[NBUF - 1 - i] == i;
      PosOf(order, i);
    }
  }

  ghost predicate Descending(order: seq<nat>, stamp: seq<nat>)
    requires |order| == |stamp| == NBUF && Nodes(order)
  {
    forall j, k | 0 <= j < k < NBUF :: stamp[order[j]] > stamp[order[k]]
  }

  lemma MovedDescending(order: seq<nat>, stamp: seq<nat>, p: nat, now: nat)
    requires |order| == |stamp| == NBUF && p < NBUF && Nodes(order) && Nodes([order[p]] + Without(order, p))
    requires Descending(order, stamp) && forall i | 0 <= i < NBUF :: stamp[i] < now
    ensures Descending([order[p]] + Without(order, p), stamp[order[p] := now])
  {
    var o, s := [order[p]] + Without(order, p), stamp[order[p] := now];
    forall j, k | 0 <= j < k < NBUF ensures s[o[j]] > s[o[k]] {
      MovedAt(order, p, k);
      assert o[k] != o[0];
      if j > 0 {
        MovedAt(order, p, j);
        assert o[j] != o[0];
      }
    }
  }

  lemma PutKeepsOrder(t: Timed, i: nat)
    requires TimedInv(t) && Allowed(t.c, PutOp(i)) && t.c.slots[i].refcnt == 1
    ensures TimedInv(Step(t, PutOp(i)))
  {
    PutKeepsInv(t.c, i);
    var p := Pos(t.c.order, i);
    assert t.c.order[p] == i;
    MoveToFrontOrder(t.c.order, p);
    MovedDescending(t.c.order, t.stamp, p, t.now);
  }

  lemma StepKeeps(t: Timed, op: Op)
    requires TimedInv(t) && Allowed(t.c, op)
    ensures TimedInv(Step(t, op))
  {
    match op
    case GetOp(dev, blockno) => GetKeepsInv(t.c, dev, blockno);
    case PutOp(i) =>
      if t.c.slots[i].refcnt == 1 {
        PutKeepsOrder(t, i);
      } else {
        PutKeepsInv(t.c, i);
      }
    case _ =>
  }

  ghost predicate Next(t: Timed, op: Op, t': Timed) {
    Wf(t.c) && |t.stamp| == NBUF && Allowed(t.c, op) && t' == Step(t, op)
  }

  /** ts is a run of the allowed operations ops from boot. */
  ghost predicate Run(ts: seq<Timed>, ops: seq<Op>) {
    && |ts| == |ops| + 1 && ts[0] == Booted()
    && forall i | 0 <= i < |ops| :: Next(ts[i], ops[i], ts[i+1])
  }

  /** Every run keeps one buffer per block and the list in order of last move to the front. */
  lemma {:induction false} RunKeeps(ts: seq<Timed>, ops: seq<Op>, i: nat)
    requires Run(ts, ops) && i < |ts|
    ensures TimedInv(ts[i])
  {
    if i == 0 {
      BootedInv();
    } else {
      RunKeeps(ts, ops, i - 1);
      assert Next(ts[i-1], ops[i-1], ts[i]);
      StepKeeps(ts[i-1], ops[i-1]);
    }
  }

  /** In every run, a miss recycles the unreferenced buffer that was moved to the front longest ago,
      and fails only when every buffer is referenced. */
  lemma RecyclesLeastRecent(ts: seq<Timed>, ops: seq<Op>, t: Timed, dev: uint, blockno: uint)
    requires Run(ts, ops) && t in ts && dev != 0 && Wf(t.c)
    requires forall i | 0 <= i < NBUF :: !Matches(t.c.slots[i], dev, blockno)
    ensures |t.stamp| == NBUF
    ensures match Get(t.c, dev, blockno)
      case None => forall i | 0 <= i < NBUF :: t.c.slots[i].refcnt > 0
      case Some((c, v)) =>
        && v < NBUF && t.c.slots[v].refcnt == 0
        && (forall i | 0 <= i < NBUF && i != v && t.c.slots[i].refcnt == 0 :: t.stamp[v] < t.stamp[i])
        && Matches(c.slots[v], dev, blockno) && !c.slots[v].valid && c.slots[v].refcnt == 1
        && forall i | 0 <= i < NBUF && i != v :: c.slots[i] == t.c.slots[i]
  {
    var n :| 0 <= n < |ts| && ts[n] == t;
    RunKeeps(ts, ops, n);
    GetMiss(t.c, dev, blockno);
    VictimOldest(t);
  }

  lemma GetMiss(c: Cache, dev: uint, blockno: uint)
    requires Wf(c) && forall i | 0 <= i < NBUF :: !Matches(c.slots[i], dev, blockno)
    ensures var k := VictimPos(c);
      if k < 0 then Get(c, dev, blockno) == None
      else Get(c, dev, blockno) == Some((Recycled(c, c.order[k], dev, blockno), c.order[k]))
  {
    LookupNone(c, dev, blockno);
  }

  lemma LookupNone(c: Cache, dev: uint, blockno: uint)
    requires Wf(c) && forall i | 0 <= i < NBUF :: !Matches(c.slots[i], dev, blockno)
    ensures Lookup(c, dev, blockno) == None
  {
  }

  lemma VictimOldest(t: Timed)
    requires TimedInv(t)
    ensures var k := VictimPos(t.c);
      forall i | 0 <= i < NBUF && t.c.slots[i].refcnt == 0 ::
        k >= 0 && (i == t.c.order[k] || t.stamp[t.c.order[k]] < t.stamp[i])
  {
    var k := VictimPos(t.c);
    forall i | 0 <= i < NBUF && t.c.slots[i].refcnt == 0
      ensures k >= 0 && (i == t.c.order[k] || t.stamp[t.c.order[k]] < t.stamp[i])
    {
      assert t.c.order[Pos(t.c.order, i)] == i;
    }
  }
}
