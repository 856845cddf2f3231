/** malloc, free and morecore of umalloc.c over the state of Arena. */
module Umalloc {
  import opened Arena

  // ---------- where free puts a block

  /** The test that ends free's search, for node p whose successor is q. */
  predicate Stops(p: nat, q: nat, bp: nat) {
    (bp > p && bp < q) || (p >= q && (bp > p || bp < q))
  }

  lemma {:induction false} FindPlace(nodes: seq<nat>, b: nat) returns (k: nat)
    requires Ascending(nodes) && |nodes| > 0 && nodes[0] < b && forall j: nat | j < |nodes| :: nodes[j] != b
    ensures Place(nodes, k, b)
  {
    k := 0;
    while k + 1 < |nodes| && nodes[k + 1] < b
      invariant k < |nodes| && nodes[k] < b
    {
      k := k + 1;
    }
  }

  /** The search stops at the block's place and nowhere else. */
  lemma StopsAtPlace(ptr: Links, nodes: seq<nat>, k: nat, b: nat)
    requires Ring(ptr, nodes) && Ascending(nodes) && k < |nodes| && nodes[0] < b
    requires forall j: nat | j < |nodes| :: nodes[j] != b
    ensures nodes[k] in ptr && (Stops(nodes[k], ptr[nodes[k]], b) <==> Place(nodes, k, b))
  {
    assert Linked(ptr, nodes, k);
  }

  /** Steps from node k forward to node t around a ring of n. */
  function Dist(n: nat, k: nat, t: nat): nat
    requires k < n && t < n
  {
    if k <= t then t - k else n - k + t
  }

  // ---------- what free does to the ring

  function FreedPtr(ptr: Links, p: nat, bp: nat, up: bool, down: bool): Links
    requires p in ptr && (up ==> ptr[p] in ptr)
  {
    var a := ptr[bp := if up then ptr[ptr[p]] else ptr[p]];
    a[p := if down then a[bp] else bp]
  }

  ghost function FreedNodes(nodes: seq<nat>, k: nat, bp: nat, up: bool, down: bool): seq<nat>
    requires k < |nodes| && (up ==> k + 1 < |nodes|)
  {
    var a := Insert(nodes, k, bp);
    var b := if up then Remove(a, k + 1) else a;
    if down then Remove(b, k) else b
  }

  lemma InsertIdx(nodes: seq<nat>, k: nat, b: nat)
    requires k < |nodes|
    ensures |Insert(nodes, k, b)| == |nodes| + 1 && Insert(nodes, k, b)[k] == nodes[k]
    ensures Insert(nodes, k, b)[k + 1] == b
    ensures k + 1 < |nodes| ==> Insert(nodes, k, b)[k + 2] == nodes[k + 1]
    ensures Insert(nodes, k, b)[0] == nodes[0]
  {
  }

  lemma FreedRing(ptr: Links, nodes: seq<nat>, k: nat, bp: nat, up: bool, down: bool)
    requires Ring(ptr, nodes) && Ascending(nodes) && Place(nodes, k, bp) && (up ==> k + 1 < |nodes|)
    ensures nodes[k] in ptr && (up ==> ptr[nodes[k]] in ptr)
    ensures Ring(FreedPtr(ptr, nodes[k], bp, up, down), FreedNodes(nodes, k, bp, up, down))
  {
    InsertAscending(nodes, k, bp);
    InsertRing(ptr, nodes, k, bp);
    assert Linked(ptr, nodes, k);
    var p, nx := nodes[k], nodes[Succ(|nodes|, k)];
    var n1 := Insert(nodes, k, bp);
    InsertIdx(nodes, k, bp);
    hide Insert, Remove, Ring, Place;
    var r1 := ptr[bp := nx][p := bp];
    var r2, n2 := r1, n1;
    if up {
      LinkedAt(ptr, nodes, k + 1);
      RemoveRing(r1, n1, k + 1);
      RemoveAscending(n1, k + 1);
      RemoveIdx(n1, k + 1, k);
      RemoveIdx(n1, k + 1, k + 1);
      r2, n2 := r1[bp := r1[nx]], Remove(n1, k + 1);
      assert nx != p && nx != bp by { OneNode(nodes, k, k + 1); }
    }
    if down {
      RemoveRing(r2, n2, k);
      assert FreedPtr(ptr, p, bp, up, down) == r2[p := r2[bp]];
    } else {
      assert FreedPtr(ptr, p, bp, up, down) == r2;
    }
  }

  lemma LinkedAt(ptr: Links, nodes: seq<nat>, k: nat)
    requires Ring(ptr, nodes) && k < |nodes|
    ensures nodes[k] in ptr
  {
    assert Linked(ptr, nodes, k);
  }

  // ---------- what free does to the blocks

  function FreedSize(size: Links, p: nat, bp: nat, nx: nat, up: bool, down: bool): Links
    requires bp in size && (up ==> nx in size) && (down ==> p in size)
  {
    var a := if up then MergeSize(size, bp, nx) else size;
    if down then MergeSize(a, p, bp) else a
  }

  ghost function FreedTag(tag: Links, p: nat, bp: nat, nx: nat, up: bool, down: bool): Links {
    var a := if up then Retag(tag, nx, bp) else tag;
    if down then Retag(a, bp, p) else a
  }

  lemma LiveSized(base: nat, size: Links, nodes: seq<nat>, live: set<nat>, tag: Links, b: nat)
    requires Shape(base, size, nodes, live, tag) && b in FreeSet(nodes) + live
    ensures b in size && size[b] > 0 && b in tag && tag[b] == b && base < b
  {
    assert Holds(size, tag, b);
    hide FreeSet;
  }

  lemma NodeSized(base: nat, size: Links, nodes: seq<nat>, live: set<nat>, tag: Links, k: nat)
    requires Shape(base, size, nodes, live, tag) && k < |nodes|
    ensures nodes[k] in size && (k > 0 ==> size[nodes[k]] > 0 && nodes[k] in FreeSet(nodes)) && nodes[k] !in live
  {
    if k > 0 {
      NodeFree(nodes, k);
      LiveSized(base, size, nodes, live, tag, nodes[k]);
    } else {
      hide FreeSet;
      HeadTag(size, nodes, live, tag, base);
    }
  }

  /** The first merge, with the next node. */
  lemma FreedUp(base: nat, size: Links, nodes: seq<nat>, live: set<nat>, tag: Links, k: nat, bp: nat)
    requires Shape(base, size, nodes, live, tag) && Apart(size, nodes) && Place(nodes, k, bp) && bp in live
    requires k + 1 < |nodes| && bp in size && bp + size[bp] == nodes[k + 1]
    ensures nodes[k + 1] in size && |FreedNodes(nodes, k, bp, true, false)| == |nodes|
    ensures var ns := FreedNodes(nodes, k, bp, true, false); var size' := MergeSize(size, bp, nodes[k + 1]);
      && Shape(base, size', ns, live - {bp}, Retag(tag, nodes[k + 1], bp)) && ApartBut(size', ns, k, k)
      && ns[k] == nodes[k] && ns[k + 1] == bp
  {
    NodeSized(base, size, nodes, live, tag, k + 1);
    InsertShape(base, size, nodes, live, tag, k, bp);
    InsertApart(size, nodes, k, bp);
    InsertIdx(nodes, k, bp);
    var n1 := Insert(nodes, k, bp);
    hide Insert, Remove, Place, Apart, ApartBut;
    assert Touch(size, n1, k + 1);
    MergeShape(base, size, n1, live - {bp}, tag, k + 1);
    MergeApart(size, n1, k, k + 1);
    RemoveIdx(n1, k + 1, k);
    RemoveIdx(n1, k + 1, k + 1);
  }

  /** No merge with the next node. */
  lemma FreedNotUp(base: nat, size: Links, nodes: seq<nat>, live: set<nat>, tag: Links, k: nat, bp: nat)
    requires Shape(base, size, nodes, live, tag) && Apart(size, nodes) && Place(nodes, k, bp) && bp in live
    requires bp in size && (k + 1 < |nodes| ==> bp + size[bp] != nodes[k + 1])
    ensures var ns := FreedNodes(nodes, k, bp, false, false);
      && Shape(base, size, ns, live - {bp}, tag) && ApartBut(size, ns, k, k)
      && |ns| == |nodes| + 1 && ns[k] == nodes[k] && ns[k + 1] == bp
  {
    InsertShape(base, size, nodes, live, tag, k, bp);
    InsertApart(size, nodes, k, bp);
    InsertIdx(nodes, k, bp);
  }

  /** The second merge, with the node before. */
  lemma FreedDown(base: nat, size: Links, nodes: seq<nat>, live: set<nat>, tag: Links, k: nat)
    requires Shape(base, size, nodes, live, tag) && ApartBut(size, nodes, k, k) && k + 1 < |nodes|
    requires Touch(size, nodes, k)
    ensures k >= 1 && nodes[k] in size && nodes[k + 1] in size
    ensures var size' := MergeSize(size, nodes[k], nodes[k + 1]);
      && Shape(base, size', Remove(nodes, k), live, Retag(tag, nodes[k + 1], nodes[k]))
      && Apart(size', Remove(nodes, k))
  {
    NodeSized(base, size, nodes, live, tag, k + 1);
    MergeShape(base, size, nodes, live, tag, k);
    var size', ns := MergeSize(size, nodes[k], nodes[k + 1]), Remove(nodes, k);
    forall j: nat | j + 1 < |ns| ensures !Touch(size', ns, j) {
      MergeTouch(size, nodes, k, j);
    }
  }

  lemma NotDown(size: Links, nodes: seq<nat>, k: nat)
    requires ApartBut(size, nodes, k, k) && k + 1 < |nodes| && !Touch(size, nodes, k)
    ensures Apart(size, nodes)
  {
  }

  /** Node w is a block of at least n units. */
  ghost predicate Fits(size: Links, nodes: seq<nat>, w: nat, n: nat) {
    w < |nodes| && nodes[w] in size && size[nodes[w]] >= n
  }

  /** The block is in the list, merged with the next node if they touch. */
  lemma FreedHalf(base: nat, size: Links, nodes: seq<nat>, live: set<nat>, tag: Links, k: nat, bp: nat, up: bool)
    requires Shape(base, size, nodes, live, tag) && Apart(size, nodes) && Place(nodes, k, bp) && bp in live
    requires bp in size && nodes[k] in size
    requires up == (k + 1 < |nodes| && bp + size[bp] == nodes[k + 1])
    ensures up ==> nodes[Succ(|nodes|, k)] in size
    ensures var p, nx := nodes[k], nodes[Succ(|nodes|, k)];
      var s1, n1 := FreedSize(size, p, bp, nx, up, false), FreedNodes(nodes, k, bp, up, false);
      && Shape(base, s1, n1, live - {bp}, FreedTag(tag, p, bp, nx, up, false)) && ApartBut(s1, n1, k, k)
      && k + 1 < |n1| && n1[k] == p && n1[k + 1] == bp && p in s1 && bp in s1 && s1[p] == size[p] && s1[bp] >= size[bp]
  {
    assert nodes[k] != bp;
    hide Shape, Apart, ApartBut, Retag, Insert, Place, Remove, FreedNodes;
    if up {
      FreedUp(base, size, nodes, live, tag, k, bp);
    } else {
      FreedNotUp(base, size, nodes, live, tag, k, bp);
    }
  }

  lemma FreedParts(size: Links, tag: Links, nodes: seq<nat>, k: nat, p: nat, bp: nat, nx: nat, up: bool)
    requires bp in size && p in size && (up ==> nx in size && k + 1 < |nodes|) && k < |nodes|
    ensures var s1, n1 := FreedSize(size, p, bp, nx, up, false), FreedNodes(nodes, k, bp, up, false);
      && p in s1 && bp in s1 && FreedSize(size, p, bp, nx, up, true) == MergeSize(s1, p, bp)
      && FreedTag(tag, p, bp, nx, up, true) == Retag(FreedTag(tag, p, bp, nx, up, false), bp, p)
      && k + 1 < |n1| && FreedNodes(nodes, k, bp, up, true) == Remove(n1, k)
  {
    hide Retag;
  }

  /** free keeps the shape of the free list, joins the block with its free neighbours, and no two free blocks touch. */
  lemma FreedShape(base: nat, size: Links, nodes: seq<nat>, live: set<nat>, tag: Links, k: nat,
      bp: nat, up: bool, down: bool)
    requires Shape(base, size, nodes, live, tag) && Apart(size, nodes) && Place(nodes, k, bp) && bp in live
    requires bp in size && nodes[k] in size
    requires up == (k + 1 < |nodes| && bp + size[bp] == nodes[k + 1])
    requires down == (nodes[k] + size[nodes[k]] == bp)
    ensures up ==> nodes[Succ(|nodes|, k)] in size
    ensures var nx := nodes[Succ(|nodes|, k)];
      var size', ns := FreedSize(size, nodes[k], bp, nx, up, down), FreedNodes(nodes, k, bp, up, down);
      && Shape(base, size', ns, live - {bp}, FreedTag(tag, nodes[k], bp, nx, up, down)) && Apart(size', ns)
      && k < |ns| && ns[k] == nodes[k] && Fits(size', ns, if down then k else k + 1, size[bp])
  {
    var p, nx := nodes[k], nodes[Succ(|nodes|, k)];
    hide Shape, Apart, ApartBut, Place, Succ;
    FreedHalf(base, size, nodes, live, tag, k, bp, up);
    FreedParts(size, tag, nodes, k, p, bp, nx, up);
    hide FreedSize, FreedNodes, FreedTag, Retag, Remove;
    var s1, n1, t1 := FreedSize(size, p, bp, nx, up, false), FreedNodes(nodes, k, bp, up, false),
      FreedTag(tag, p, bp, nx, up, false);
    if down {
      FreedDown(base, s1, n1, live - {bp}, t1, k);
      RemoveIdx(n1, k, k);
    } else {
      NotDown(s1, n1, k);
    }
  }

  /** The other live blocks and their units are left alone. */
  ghost predicate Undisturbed(live: set<nat>, size: Links, tag: Links, size': Links, tag': Links) {
    && (forall b | b in live :: b in size && b in size' && size'[b] == size[b])
    && (forall u | u in tag && tag[u] in live :: u in tag' && tag'[u] == tag[u])
  }

  lemma FreedUndisturbed(base: nat, size: Links, nodes: seq<nat>, live: set<nat>, tag: Links,
      k: nat, bp: nat, up: bool, down: bool)
    requires Shape(base, size, nodes, live, tag) && k < |nodes| && bp in live && bp in size
    requires up ==> k + 1 < |nodes| && nodes[k + 1] in size
    requires nodes[k] in size
    ensures var nx := nodes[Succ(|nodes|, k)];
      && Undisturbed(live - {bp}, size, tag, FreedSize(size, nodes[k], bp, nx, up, down),
        FreedTag(tag, nodes[k], bp, nx, up, down))
      && FreedTag(tag, nodes[k], bp, nx, up, down).Keys == tag.Keys
  {
    NodeSized(base, size, nodes, live, tag, k);
    NodeSized(base, size, nodes, live, tag, Succ(|nodes|, k));
    forall b | b in live ensures b in size { LiveSized(base, size, nodes, live, tag, b); }
    hide Shape, Succ, MergeSize, Retag;
    var p, nx, rest := nodes[k], nodes[Succ(|nodes|, k)], live - {bp};
    var s1, t1 := FreedSize(size, p, bp, nx, up, false), FreedTag(tag, p, bp, nx, up, false);
    if up {
      MergeUndisturbed(rest, size, tag, bp, nx);
    }
    if down {
      MergeUndisturbed(rest, s1, t1, p, bp);
    }
  }

  lemma MergeUndisturbed(live: set<nat>, size: Links, tag: Links, a: nat, b: nat)
    requires a in size && b in size && a !in live && b !in live && forall x | x in live :: x in size
    ensures Undisturbed(live, size, tag, MergeSize(size, a, b), Retag(tag, b, a))
    ensures Retag(tag, b, a).Keys == tag.Keys && MergeSize(size, a, b).Keys == size.Keys
  {
  }

  // ---------- the code

  /** The units a request of nbytes takes, with its header. */
  function Units(nbytes: nat): nat { (nbytes + 15) / 16 + 1 }

  /** A block of Units(nbytes) units has room for nbytes bytes after its header, and no unit to spare. */
  lemma UnitsEnough(nbytes: nat)
    ensures (Units(nbytes) - 1) * 16 >= nbytes && (Units(nbytes) >= 2 ==> (Units(nbytes) - 2) * 16 < nbytes)
  {
  }

  class Heap {
    const base: nat
    var ptr: Links
    var size: Links
    var freep: nat                 // 0 is the null pointer
    var brk: nat                   // end of the memory sbrk has given out
    ghost var nodes: seq<nat>      // the free list from base on
    ghost var at: nat              // freep's place in it
    ghost var live: set<nat>       // blocks handed out
    ghost var tag: Links           // the block of each unit obtained

    ghost predicate Listed()
      reads this
    {
      && freep != 0 && Ring(ptr, nodes) && Shape(base, size, nodes, live, tag) && Apart(size, nodes)
      && at < |nodes| && nodes[at] == freep && base < brk && forall u | u in tag :: u < brk
    }

    /** Before the first call there is no list; after it the list is in order. */
    ghost predicate Good()
      reads this
    {
      if freep == 0 then base > 0 && base < brk && live == {} && tag == map[] else Listed()
    }

    constructor (base: nat, brk: nat)
      requires 0 < base < brk
      ensures Good() && live == {} && tag == map[]
    {
      this.base, ptr, size, freep, this.brk := base, map[], map[], 0, brk;
      live, tag, nodes := {}, map[], [];
    }

    /** The search loop of free: around the ring from freep to the block's place, the last node below it. */
    method Search(bp: nat) returns (p: nat, ghost k: nat)
      requires Listed() && bp in live
      ensures Place(nodes, k, bp) && p == nodes[k]
      ensures p in nodes && p < bp && forall j: nat | j < |nodes| && nodes[j] < bp :: nodes[j] <= p
    {
      hide Apart;
      BlockNotNode(base, size, nodes, live, tag, bp);
      ghost var t := FindPlace(nodes, bp);
      hide Shape;
      p, k := freep, at;
      StopsAtPlace(ptr, nodes, k, bp);
      while !(bp > p && bp < ptr[p])
        invariant k < |nodes| && p == nodes[k] && p in ptr
        invariant Stops(p, ptr[p], bp) <==> Place(nodes, k, bp)
        decreases Dist(|nodes|, k, t)
      {
        if p >= ptr[p] && (bp > p || bp < ptr[p]) {
          break;
        }
        assert k != t;
        assert Linked(ptr, nodes, k);
        p, k := ptr[p], Succ(|nodes|, k);
        StopsAtPlace(ptr, nodes, k, bp);
      }
    }

    /** The rest of free, once p is found. */
    method Join(p: nat, bp: nat)
      requires p in ptr && bp in size && p in size && p != bp
      requires bp + size[bp] == ptr[p] ==> ptr[p] in ptr && ptr[p] in size
      modifies this`ptr, this`size, this`freep
      ensures var nx := old(ptr)[p]; var up, down := bp + old(size[bp]) == nx, p + old(size[p]) == bp;
        ptr == FreedPtr(old(ptr), p, bp, up, down) && size == FreedSize(old(size), p, bp, nx, up, down)
      ensures freep == p
    {
      var nx := ptr[p];
      if bp + size[bp] == nx {
        size := size[bp := size[bp] + size[nx]];
        ptr := ptr[bp := ptr[nx]];
      } else {
        ptr := ptr[bp := nx];
      }
      if p + size[p] == bp {
        size := size[p := size[p] + size[bp]];
        ptr := ptr[p := ptr[bp]];
      } else {
        ptr := ptr[p := bp];
      }
      freep := p;
    }

    /** free: the block joins the free list at its place, merged with the free blocks it touches. */
    method Free(bp: nat) returns (ghost w: nat)
      requires Listed() && bp in live
      modifies this
      ensures Listed() && live == old(live) - {bp} && tag.Keys == old(tag.Keys) && brk == old(brk)
      ensures Undisturbed(live, old(size), old(tag), size, tag)
      ensures bp in old(size) && Fits(size, nodes, w, old(size[bp]))
    {
      hide Shape, Apart, Ring, Undisturbed, Place, Fits, FreedPtr, FreedSize, FreedNodes, Ascending, Succ;
      var p: nat;
      ghost var k: nat;
      p, k := Search(bp);
      PlaceFacts(nodes, k, bp);
      LiveSized(base, size, nodes, live, tag, bp);
      NodeSized(base, size, nodes, live, tag, k);
      RingAt(ptr, nodes, k);
      var nx := ptr[p];
      BaseBelow(base, size, nodes, live, tag, k, bp);
      var up := bp + size[bp] == nx;
      var down := p + size[p] == bp;
      NextIsSucc(nodes, k, bp, size[bp]);
      FreedRing(ptr, nodes, k, bp, up, down);
      FreedShape(base, size, nodes, live, tag, k, bp, up, down);
      FreedUndisturbed(base, size, nodes, live, tag, k, bp, up, down);
      Join(p, bp);
      tag, nodes, live, at := FreedTag(tag, p, bp, nx, up, down), FreedNodes(nodes, k, bp, up, down), live - {bp}, k;
      w := if down then k else k + 1;
    }

    /** morecore: fresh units from sbrk, which grants the request at some address past brk or refuses it, go to the
        free list; the answer is freep, or 0. */
    method Morecore(nu: nat, granted: bool, gap: nat) returns (p: nat, ghost w: nat)
      requires Listed()
      modifies this
      ensures Listed() && live == old(live) && Undisturbed(live, old(size), old(tag), size, tag)
      ensures p == 0 <==> !granted
      ensures p == 0 ==> unchanged(this)
      ensures p != 0 ==> p == freep && Fits(size, nodes, w, nu) && Obtained(old(tag), tag, old(brk) + gap, Core(nu))
    {
      hide Shape, Apart, Ring, Undisturbed, Fits;
      w := 0;
      if !granted {
        UndisturbedSelf(base, size, nodes, live, tag);
        return 0, w;
      }
      var n := Core(nu);
      var hp := brk + gap;
      ghost var size0, tag0 := size, tag;
      tag := tag + map u: nat | hp <= u < hp + n && InCore(hp, u) :: hp;
      CoreTagged(base, size, nodes, live, tag0, hp, n, tag);
      CoreKeeps(base, size, nodes, live, tag0, hp, n, tag);
      size := size[hp := n];
      live := live + {hp};
      brk := hp + n;
      ghost var size1, tag1 := size, tag;
      w := Free(hp);
      assert live == old(live);
      UndisturbedTrans(live, size0, tag0, size1, tag1, size, tag);
      FitsLess(size, nodes, w, n, nu);
      return freep, w;
    }

    /** Initialise the list on the first call. */
    method Begin()
      requires Good()
      modifies this
      ensures Listed() && live == old(live) && tag == old(tag) && brk == old(brk)
      ensures Undisturbed(live, old(size), old(tag), size, tag)
      ensures old(freep) != 0 ==> unchanged(this)
    {
      if freep == 0 {
        ptr, freep, size := ptr[base := base], base, size[base := 0];
        nodes, at := [base], 0;
        BeginShape(base, ptr, size);
      } else {
        UndisturbedSelf(base, size, nodes, live, tag);
      }
    }

    /** The branch of malloc that takes block p, whose predecessor on the list is prevp. */
    method Take(prevp: nat, p: nat, ghost i: nat, n: nat) returns (b: nat)
      requires Listed() && i + 1 < |nodes| && nodes[i] == prevp && nodes[i + 1] == p && 0 < n && p in size
      requires size[p] >= n
      modifies this
      ensures Listed() && b !in old(live) && live == old(live) + {b} && b in size && size[b] == n
      ensures tag.Keys == old(tag.Keys) && Undisturbed(old(live), old(size), old(tag), size, tag)
      ensures freep == prevp && b + n == p + old(size)[p]
    {
      hide Shape, Apart, Ring, Undisturbed, Ascending;
      RingAt(ptr, nodes, i + 1);
      RingAt(ptr, nodes, i);
      TakeFacts(base, size, nodes, live, tag, i);
      if size[p] == n {
        TakeShape(base, size, nodes, live, tag, i);
        RemoveRing(ptr, nodes, i);
        RemoveIdx(nodes, i, i);
        UndisturbedSelf(base, size, nodes, live, tag);
        ptr := ptr[prevp := ptr[p]];
        b := p;
        nodes := Remove(nodes, i);
      } else {
        ghost var size0, tag0 := size, tag;
        b := p + size[p] - n;
        size := size[p := size[p] - n][b := n];
        tag := map u | u in tag :: if b <= u < b + n then b else tag[u];
        CarveShape(base, size0, nodes, live, tag0, i + 1, n, b, size, tag);
      }
      live := live + {b};
      freep := prevp;
      at := i;
    }

    /** malloc: a block of Units(nbytes) units that overlaps no other live block, or 0, which only happens when sbrk
        refuses.  sbrk is asked only when no free block is large enough.  All other live blocks stay as they are, and
        the units obtained so far stay accounted for. */
    method Malloc(nbytes: nat, granted: bool, gap: nat) returns (ap: nat)
      requires Good()
      modifies this
      ensures Listed() && Undisturbed(old(live), old(size), old(tag), size, tag)
      ensures ap == 0 ==> !granted && live == old(live) && tag == old(tag)
      ensures ap != 0 ==> ap - 1 !in old(live) && live == old(live) + {ap - 1}
      ensures ap != 0 ==> ap - 1 in size && size[ap - 1] == Units(nbytes)
      ensures tag.Keys == old(tag.Keys) || Obtained(old(tag), tag, old(brk) + gap, Core(Units(nbytes)))
      ensures old(freep) != 0 && (ap == 0 || tag.Keys != old(tag.Keys)) ==>
        NoneFits(old(size), old(nodes), Units(nbytes))
    {
      hide Shape, Apart, Ring, Undisturbed, Fits, SmallBefore, NoneFits;
      var nunits := Units(nbytes);
      Begin();
      var prevp := freep;
      RingAt(ptr, nodes, at);
      var p := ptr[prevp];
      ghost var i: nat, j: nat, w: nat := at, Succ(|nodes|, at), 0;
      var grown := false;               // morecore has been called; it is never called twice
      SmallNone(size, nodes, at, nunits);
      while true
        invariant Listed() && live == old(live) && Undisturbed(live, old(size), old(tag), size, tag)
        invariant if grown then Obtained(old(tag), tag, old(brk) + gap, Core(nunits))
          else tag == old(tag) && brk == old(brk)
        invariant i < |nodes| && j == Succ(|nodes|, i) && nodes[i] == prevp && nodes[j] == p
        invariant grown ==> granted && w < |nodes| && Fits(size, nodes, w, nunits)
        invariant grown ==> Dist(|nodes|, w, at) <= Dist(|nodes|, j, at)
        invariant !grown && old(freep) != 0 ==> size == old(size) && nodes == old(nodes)
        invariant !grown ==> SmallBefore(size, nodes, j, at, nunits)
        invariant grown && old(freep) != 0 ==> NoneFits(old(size), old(nodes), nunits)
        decreases if grown then 0 else 1, Dist(|nodes|, j, at)
      {
        NodeSized(base, size, nodes, live, tag, j);
        if size[p] >= nunits {
          BaseNode(base, size, nodes, live, tag, j);
          ghost var size0, tag0 := size, tag;
          var b := Take(prevp, p, i, nunits);
          UndisturbedTrans(old(live), old(size), old(tag), size0, tag0, size, tag);
          return b + 1;
        }
        FitsNode(size, nodes, w, j, nunits);
        if p == freep {
          SameNode(base, size, nodes, live, tag, j, at);
          if grown {
            assert false;
          } else {
            ghost var size0, tag0 := size, tag;
            SmallAll(size, nodes, at, nunits);
            p, w := Morecore(nunits, granted, gap);
            UndisturbedTrans(live, old(size), old(tag), size0, tag0, size, tag);
            if p == 0 {
              return 0;
            }
            grown := true;
            j := at;
          }
        }
        RingAt(ptr, nodes, j);
        FitsIn(size, nodes, w, nunits);
        if !grown {
          SmallStep(size, nodes, j, at, nunits);
        }
        prevp, i := p, j;
        p, j := ptr[p], Succ(|nodes|, j);
      }
    }
  }

  /** No free block has n units. */
  ghost predicate NoneFits(size: Links, nodes: seq<nat>, n: nat) {
    forall k: nat | k < |nodes| :: nodes[k] in size && size[nodes[k]] < n
  }

  /** No node that the search from at has passed before it came to j has n units. */
  ghost predicate SmallBefore(size: Links, nodes: seq<nat>, j: nat, at: nat, n: nat)
    requires j < |nodes| && at < |nodes|
  {
    forall k: nat | k < |nodes| && Dist(|nodes|, k, at) > Dist(|nodes|, j, at) :: nodes[k] in size && size[nodes[k]] < n
  }

  lemma SmallNone(size: Links, nodes: seq<nat>, at: nat, n: nat)
    requires at < |nodes|
    ensures SmallBefore(size, nodes, Succ(|nodes|, at), at, n)
  {
  }

  lemma SmallStep(size: Links, nodes: seq<nat>, j: nat, at: nat, n: nat)
    requires j < |nodes| && at < |nodes| && j != at && SmallBefore(size, nodes, j, at, n)
    requires nodes[j] in size && size[nodes[j]] < n
    ensures SmallBefore(size, nodes, Succ(|nodes|, j), at, n)
  {
  }

  lemma SmallAll(size: Links, nodes: seq<nat>, at: nat, n: nat)
    requires at < |nodes| && SmallBefore(size, nodes, at, at, n) && nodes[at] in size && size[nodes[at]] < n
    ensures NoneFits(size, nodes, n)
  {
  }

  /** morecore asks for at least 4096 units. */
  function Core(nu: nat): (r: nat)
    ensures r >= nu && r >= 4096 && (r == nu || r == 4096)
  {
    if nu < 4096 then 4096 else nu
  }

  /** The units of tag' are those of tag and n fresh ones from hp on. */
  ghost predicate Obtained(tag: Links, tag': Links, hp: nat, n: nat) {
    && (forall u: nat :: u in tag' <==> u in tag || hp <= u < hp + n)
    && (forall u | u in tag :: u < hp)
  }

  lemma UndisturbedSelf(base: nat, size: Links, nodes: seq<nat>, live: set<nat>, tag: Links)
    requires Shape(base, size, nodes, live, tag)
    ensures Undisturbed(live, size, tag, size, tag)
  {
    forall b | b in live ensures b in size { LiveSized(base, size, nodes, live, tag, b); }
  }

  lemma UndisturbedTrans(live: set<nat>, s0: Links, t0: Links, s1: Links, t1: Links, s2: Links, t2: Links)
    requires Undisturbed(live, s0, t0, s1, t1) && Undisturbed(live, s1, t1, s2, t2)
    ensures Undisturbed(live, s0, t0, s2, t2)
  {
  }

  lemma CoreKeeps(base: nat, size: Links, nodes: seq<nat>, live: set<nat>, tag: Links, hp: nat, n: nat, tag': Links)
    requires Shape(base, size, nodes, live, tag) && Apart(size, nodes) && n > 0 && base < hp
    requires forall u | u in tag :: u < hp
    requires tag' == tag + map u: nat | hp <= u < hp + n && InCore(hp, u) :: hp
    ensures Undisturbed(live, size, tag, size[hp := n], tag') && Apart(size[hp := n], nodes)
    ensures Obtained(tag, tag', hp, n)
  {
    CoreUnits(tag, hp, n, tag');
    forall b | b in live ensures b in size && b < hp { LiveSized(base, size, nodes, live, tag, b); }
    forall j: nat | j < |nodes| ensures nodes[j] < hp {
      NodeSized(base, size, nodes, live, tag, j);
      if j > 0 { LiveSized(base, size, nodes, live, tag, nodes[j]); }
    }
    var size' := size[hp := n];
    forall j: nat | j + 1 < |nodes| ensures !Touch(size', nodes, j) {
      assert !Touch(size, nodes, j);
    }
  }

  lemma FitsLess(size: Links, nodes: seq<nat>, w: nat, n: nat, m: nat)
    requires Fits(size, nodes, w, n) && m <= n
    ensures Fits(size, nodes, w, m)
  {
  }

  lemma FitsIn(size: Links, nodes: seq<nat>, w: nat, n: nat)
    ensures Fits(size, nodes, w, n) ==> w < |nodes|
  {
  }

  lemma FitsNode(size: Links, nodes: seq<nat>, w: nat, j: nat, n: nat)
    requires j < |nodes| && nodes[j] in size && size[nodes[j]] < n
    ensures Fits(size, nodes, w, n) ==> w != j
  {
  }

  lemma SameNode(base: nat, size: Links, nodes: seq<nat>, live: set<nat>, tag: Links, j: nat, k: nat)
    requires Shape(base, size, nodes, live, tag) && j < |nodes| && k < |nodes| && nodes[j] == nodes[k]
    ensures j == k
  {
    OneNode(nodes, j, k);
  }

  /** base is empty, so a block that fits is not base. */
  lemma BaseNode(base: nat, size: Links, nodes: seq<nat>, live: set<nat>, tag: Links, j: nat)
    requires Shape(base, size, nodes, live, tag) && j < |nodes| && nodes[j] in size && size[nodes[j]] > 0
    ensures j > 0
  {
  }

  lemma BeginShape(base: nat, ptr: Links, size: Links)
    requires base > 0 && base in ptr && ptr[base] == base && base in size && size[base] == 0
    ensures Ring(ptr, [base]) && Shape(base, size, [base], {}, map[]) && Apart(size, [base])
  {
    assert Linked(ptr, [base], 0);
    assert FreeSet([base]) == {};
  }

  lemma TakeFacts(base: nat, size: Links, nodes: seq<nat>, live: set<nat>, tag: Links, i: nat)
    requires Shape(base, size, nodes, live, tag) && i + 1 < |nodes|
    ensures nodes[i] > 0 && Ascending(nodes)
  {
  }

  lemma TakeShape(base: nat, size: Links, nodes: seq<nat>, live: set<nat>, tag: Links, i: nat)
    requires Shape(base, size, nodes, live, tag) && Apart(size, nodes) && i + 1 < |nodes|
    ensures Shape(base, size, Remove(nodes, i), live + {nodes[i + 1]}, tag) && Apart(size, Remove(nodes, i))
    ensures nodes[i + 1] !in live
  {
    TakeTagged(base, size, nodes, live, tag, i);
    RemoveAscending(nodes, i);
    FreeApart(base, size, nodes, live, tag, i);
    RemoveApart(size, nodes, i);
    hide Tagged, Apart;
  }

  lemma CarveShape(base: nat, size: Links, nodes: seq<nat>, live: set<nat>, tag: Links, k: nat, n: nat, q: nat,
                   size': Links, tag': Links)
    requires Shape(base, size, nodes, live, tag) && Apart(size, nodes) && 1 <= k < |nodes|
    requires nodes[k] in size && 0 < n < size[nodes[k]] && q == nodes[k] + size[nodes[k]] - n
    requires size' == size[nodes[k] := size[nodes[k]] - n][q := n]
    requires tag' == map u | u in tag :: if q <= u < q + n then q else tag[u]
    ensures Shape(base, size', nodes, live + {q}, tag') && Apart(size', nodes) && q !in live
    ensures Undisturbed(live, size, tag, size', tag') && tag'.Keys == tag.Keys
  {
    CarveTagged(base, size, nodes, live, tag, k, n, q, size', tag');
    if k + 1 < |nodes| {
      FreeApart(base, size, nodes, live, tag, k);
    }
    CarveNode(base, size, nodes, live, tag, k, q);
    CarveApart(size, nodes, k, n, q, size');
    CarveUndisturbed(base, size, nodes, live, tag, k, n, q, size', tag');
    hide Tagged, Apart;
  }

  lemma CarveNode(base: nat, size: Links, nodes: seq<nat>, live: set<nat>, tag: Links, k: nat, q: nat)
    requires Shape(base, size, nodes, live, tag) && 1 <= k < |nodes| && q !in FreeSet(nodes) && nodes[k] < q
    ensures base != q && forall j: nat | j < |nodes| :: nodes[j] != q
  {
    forall j: nat | j < |nodes| ensures nodes[j] != q {
      if j > 0 { NodeFree(nodes, j); }
    }
  }

  lemma CarveUndisturbed(base: nat, size: Links, nodes: seq<nat>, live: set<nat>, tag: Links, k: nat, n: nat, q: nat,
                         size': Links, tag': Links)
    requires Shape(base, size, nodes, live, tag) && 1 <= k < |nodes| && q !in live
    requires nodes[k] in size && 0 < n < size[nodes[k]] && q == nodes[k] + size[nodes[k]] - n
    requires size' == size[nodes[k] := size[nodes[k]] - n][q := n]
    requires tag' == map u | u in tag :: if q <= u < q + n then q else tag[u]
    ensures Undisturbed(live, size, tag, size', tag')
  {
    NodeSized(base, size, nodes, live, tag, k);
    assert Holds(size, tag, nodes[k]);
    forall b | b in live ensures b in size { LiveSized(base, size, nodes, live, tag, b); }
    hide Shape;
  }

  lemma PlaceFacts(nodes: seq<nat>, k: nat, bp: nat)
    requires Place(nodes, k, bp)
    ensures k < |nodes| && nodes[k] < bp
  {
  }

  lemma RingAt(ptr: Links, nodes: seq<nat>, k: nat)
    requires Ring(ptr, nodes) && k < |nodes|
    ensures nodes[k] in ptr && ptr[nodes[k]] == nodes[Succ(|nodes|, k)] && nodes[Succ(|nodes|, k)] in ptr
  {
    assert Linked(ptr, nodes, k);
    assert Linked(ptr, nodes, Succ(|nodes|, k));
  }

  lemma NextIsSucc(nodes: seq<nat>, k: nat, bp: nat, n: nat)
    requires k < |nodes| && Ascending(nodes) && nodes[0] < bp
    ensures bp + n == nodes[Succ(|nodes|, k)] <==> k + 1 < |nodes| && bp + n == nodes[k + 1]
    ensures k + 1 < |nodes| ==> nodes[Succ(|nodes|, k)] == nodes[k + 1]
  {
  }

  lemma BlockNotNode(base: nat, size: Links, nodes: seq<nat>, live: set<nat>, tag: Links, bp: nat)
    requires Shape(base, size, nodes, live, tag) && bp in live
    ensures base == nodes[0] < bp && forall j: nat | j < |nodes| :: nodes[j] != bp
  {
    LiveSized(base, size, nodes, live, tag, bp);
    forall j: nat | j < |nodes| ensures nodes[j] != bp {
      NodeSized(base, size, nodes, live, tag, j);
    }
  }

  /** A block that ends where a node begins is not followed by the wrap to base. */
  lemma BaseBelow(base: nat, size: Links, nodes: seq<nat>, live: set<nat>, tag: Links, k: nat, bp: nat)
    requires Shape(base, size, nodes, live, tag) && bp in live && k < |nodes| && bp in size
    ensures bp + size[bp] == nodes[Succ(|nodes|, k)] ==> k + 1 < |nodes| && nodes[Succ(|nodes|, k)] in size
    ensures base == nodes[0] < bp && Ascending(nodes) && nodes[k] > 0
  {
    LiveSized(base, size, nodes, live, tag, bp);
    NodeSized(base, size, nodes, live, tag, Succ(|nodes|, k));
  }
}
