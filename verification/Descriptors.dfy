/** alloc_desc, free_desc, free_chain and alloc3_desc of virtio_disk.c as they run, against Virtio's predicates. */
module Descriptors {
  import opened Virtio

  lemma FirstUnique(free: seq<bool>, i: nat, j: nat)
    requires IsFirst(free, i) && IsFirst(free, j)
    ensures i == j
  {
  }

  /** Following next from xs[0] visits xs and stops; its descriptors are distinct and in use. */
  ghost predicate Linked(desc: seq<Desc>, free: seq<bool>, xs: seq<nat>) {
    && |xs| > 0 && |desc| == |free| == NUM
    && (forall k: nat | k < |xs| :: xs[k] < NUM && !free[xs[k]])
    && (forall k: nat | k + 1 < |xs| :: desc[xs[k]].hasNext && desc[xs[k]].next == xs[k + 1])
    && !desc[xs[|xs| - 1]].hasNext
    && (forall j: nat, k: nat | j < k < |xs| :: xs[j] != xs[k])
  }

  ghost predicate NoneFree(f: seq<bool>) {
    forall i: nat | i < |f| :: !f[i]
  }

  /** q with v at every index in xs. */
  ghost function PutAll<T>(q: seq<T>, xs: seq<nat>, v: T): (r: seq<T>)
    ensures |r| == |q|
  {
    if xs == [] then q
    else
      var p := PutAll(q, xs[..|xs| - 1], v);
      var i := xs[|xs| - 1];
      if i < |q| then p[i := v] else p
  }

  lemma {:induction false} PutAllAt<T>(q: seq<T>, xs: seq<nat>, v: T, j: nat)
    requires j < |q|
    ensures PutAll(q, xs, v)[j] == if j in xs then v else q[j]
    decreases |xs|
  {
    if xs != [] {
      PutAllAt(q, xs[..|xs| - 1], v, j);
      assert xs == xs[..|xs| - 1] + [xs[|xs| - 1]];
    }
  }

  /** For the chain of a disk request this is what Virtio's Finish says. */
  lemma PutAllIsMark3<T>(q: seq<T>, i: nat, j: nat, k: nat, v: T)
    requires i < |q| && j < |q| && k < |q|
    ensures PutAll(q, [i, j, k], v) == Mark3(q, i, j, k, v)
  {
    hide PutAll, Mark3;
    var p, m := PutAll(q, [i, j, k], v), Mark3(q, i, j, k, v);
    Mark3At(q, i, j, k, v, 0);
    forall x: nat | x < |q| ensures p[x] == m[x] {
      PutAllAt(q, [i, j, k], v, x);
      Mark3At(q, i, j, k, v, x);
    }
  }

  lemma Mark3At<T>(q: seq<T>, i: nat, j: nat, k: nat, v: T, x: nat)
    requires i < |q| && j < |q| && k < |q|
    ensures |Mark3(q, i, j, k, v)| == |q|
    ensures x < |q| ==> Mark3(q, i, j, k, v)[x] == if x in [i, j, k] then v else q[x]
  {
  }

  /** At the k-th descriptor of a chain, the loop finds it in use and its links as they were. */
  lemma Reached(desc: seq<Desc>, free: seq<bool>, xs: seq<nat>, k: nat)
    requires Linked(desc, free, xs) && k < |xs|
    ensures xs[k] < NUM && !PutAll(free, xs[..k], true)[xs[k]] && PutAll(desc, xs[..k], CLEARED)[xs[k]] == desc[xs[k]]
    ensures desc[xs[k]].hasNext <==> k + 1 < |xs|
    ensures k + 1 < |xs| ==> desc[xs[k]].next == xs[k + 1]
  {
    PutAllAt(free, xs[..k], true, xs[k]);
    PutAllAt(desc, xs[..k], CLEARED, xs[k]);
  }

  class DescTable {
    const free: array<bool>
    const desc: array<Desc>

    ghost predicate Valid()
      reads this
    {
      free.Length == desc.Length == NUM
    }

    /** alloc_desc: the first free descriptor, no longer free, or -1 when there is none. */
    method AllocDesc() returns (r: int)
      requires Valid()
      modifies free
      ensures r == -1 ==> free[..] == old(free[..]) && NoneFree(free[..])
      ensures r != -1 ==> 0 <= r && IsFirst(old(free[..]), r) && free[..] == old(free[..])[r := false]
    {
      var i := 0;
      while i < NUM
        invariant i <= NUM && free[..] == old(free[..]) && forall j: nat | j < i :: !free[j]
      {
        if free[i] {
          free[i] := false;
          return i;
        }
        i := i + 1;
      }
      return -1;
    }

    /** free_desc: the descriptor must be in range and not free. */
    method FreeDesc(i: nat)
      requires Valid() && i < NUM && !free[i]
      modifies free, desc
      ensures free[..] == old(free[..])[i := true] && desc[..] == old(desc[..])[i := CLEARED]
    {
      desc[i] := CLEARED;
      free[i] := true;
    }

    /** free_chain: exactly the descriptors of the chain become free and cleared. */
    method FreeChain(i: nat, ghost xs: seq<nat>)
      requires Valid() && Linked(desc[..], free[..], xs) && xs[0] == i
      modifies free, desc
      ensures free[..] == PutAll(old(free[..]), xs, true) && desc[..] == PutAll(old(desc[..]), xs, CLEARED)
    {
      var at := i;
      ghost var k := 0;
      while true
        invariant k < |xs| && at == xs[k]
        invariant free[..] == PutAll(old(free[..]), xs[..k], true)
        invariant desc[..] == PutAll(old(desc[..]), xs[..k], CLEARED)
        decreases |xs| - k
      {
        Reached(old(desc[..]), old(free[..]), xs, k);
        assert free[at] == free[..][at] && desc[at] == desc[..][at];
        var d := desc[at];
        FreeDesc(at);
        assert xs[..k + 1][..k] == xs[..k];
        if d.hasNext {
          at, k := d.next, k + 1;
        } else {
          assert xs[..k + 1] == xs;
          break;
        }
      }
    }

    /** alloc3_desc: three descriptors, or none and the free ones are as they were. */
    method Alloc3Desc() returns (ok: bool, i0: nat, i1: nat, i2: nat)
      requires Valid()
      modifies free, desc
      ensures ok ==> Alloc3(old(free[..]), i0, i1, i2) && desc[..] == old(desc[..])
      ensures ok ==> free[..] == old(free[..])[i0 := false][i1 := false][i2 := false]
      ensures !ok ==> free[..] == old(free[..])
      ensures !ok ==> forall j0: nat, j1: nat, j2: nat :: !Alloc3(old(free[..]), j0, j1, j2)
      ensures !ok ==> forall j: nat | j < NUM && !free[j] :: desc[j] == old(desc[j])
    {
      ghost var f0 := free[..];
      i0, i1, i2 := 0, 0, 0;
      var a := AllocDesc();
      if a < 0 {
        return false, 0, 0, 0;
      }
      var b := AllocDesc();
      if b < 0 {
        forall j0: nat, j1: nat, j2: nat ensures !Alloc3(f0, j0, j1, j2) {
          Exhausted(f0, a, j0, j1, j2);
        }
        FreeDesc(a);
        assert free[..] == f0;
        return false, 0, 0, 0;
      }
      var c := AllocDesc();
      if c < 0 {
        forall j0: nat, j1: nat, j2: nat ensures !Alloc3(f0, j0, j1, j2) {
          Exhausted2(f0, a, b, j0, j1, j2);
        }
        FreeDesc(a);
        FreeDesc(b);
        assert free[..] == f0;
        return false, 0, 0, 0;
      }
      return true, a, b, c;
    }
  }

  lemma Exhausted(f: seq<bool>, a: nat, j0: nat, j1: nat, j2: nat)
    requires |f| == NUM && IsFirst(f, a) && NoneFree(f[a := false])
    ensures !Alloc3(f, j0, j1, j2)
  {
    if IsFirst(f, j0) {
      FirstUnique(f, a, j0);
    }
  }

  lemma Exhausted2(f: seq<bool>, a: nat, b: nat, j0: nat, j1: nat, j2: nat)
    requires |f| == NUM && IsFirst(f, a) && IsFirst(f[a := false], b)
    requires NoneFree(f[a := false][b := false])
    ensures !Alloc3(f, j0, j1, j2)
  {
    if IsFirst(f, j0) {
      FirstUnique(f, a, j0);
      if IsFirst(f[a := false], j1) {
        FirstUnique(f[a := false], b, j1);
      }
    }
  }
}
