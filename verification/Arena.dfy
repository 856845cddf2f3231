/** The state of the K&R allocator (section 8.7 of The C Programming Language, 2nd edition), in units of one
    header: the circular free list, block sizes, and which block each unit obtained from sbrk belongs to. */
module Arena {

  type Links = map<nat, nat>

  /** Following ptr from nodes[0] visits nodes in order and comes back. */
  ghost predicate Ring(ptr: Links, nodes: seq<nat>) {
    && |nodes| > 0
    && forall k: nat | k < |nodes| :: Linked(ptr, nodes, k)
  }

  ghost predicate Linked(ptr: Links, nodes: seq<nat>, k: nat)
    requires k < |nodes|
  {
    nodes[k] in ptr && ptr[nodes[k]] == nodes[Succ(|nodes|, k)]
  }

  function Succ(n: nat, k: nat): nat { if k + 1 == n then 0 else k + 1 }

  /** Address order, with the one wrap from the last node to the first. */
  ghost predicate Ascending(nodes: seq<nat>) {
    forall j: nat, k: nat | j < k < |nodes| :: nodes[j] < nodes[k]
  }

  /** The free blocks: all nodes but the first, which is the empty block base. */
  ghost function FreeSet(nodes: seq<nat>): set<nat> {
    set k: nat | 1 <= k < |nodes| :: nodes[k]
  }

  ghost predicate Holds(size: Links, tag: Links, b: nat) {
    b in size && size[b] > 0 && forall u: nat | b <= u < b + size[b] :: u in tag && tag[u] == b
  }

  ghost predicate Within(size: Links, tag: Links, u: nat)
    requires u in tag
  {
    tag[u] in size && tag[u] <= u < tag[u] + size[tag[u]]
  }

  /** Every unit obtained belongs to exactly one block, free or live: tag says which. */
  ghost predicate Tagged(size: Links, nodes: seq<nat>, live: set<nat>, tag: Links) {
    && (forall b | b in FreeSet(nodes) + live :: Holds(size, tag, b))
    && (forall u | u in tag :: Within(size, tag, u) && tag[u] in FreeSet(nodes) + live)
    && FreeSet(nodes) !! live
  }

  ghost predicate Based(base: nat, size: Links, nodes: seq<nat>, tag: Links) {
    && |nodes| > 0 && nodes[0] == base > 0 && base in size && size[base] == 0
    && forall u | u in tag :: base < u
  }

  ghost predicate Shape(base: nat, size: Links, nodes: seq<nat>, live: set<nat>, tag: Links) {
    Ascending(nodes) && Based(base, size, nodes, tag) && Tagged(size, nodes, live, tag)
  }

  ghost predicate Touch(size: Links, nodes: seq<nat>, k: nat)
    requires k + 1 < |nodes|
  {
    nodes[k] in size && nodes[k] + size[nodes[k]] == nodes[k + 1]
  }

  /** No two free blocks touch. */
  ghost predicate Apart(size: Links, nodes: seq<nat>) {
    forall k: nat | k + 1 < |nodes| :: !Touch(size, nodes, k)
  }

  // ---------- reading off

  lemma NodeFree(nodes: seq<nat>, k: nat)
    requires 1 <= k < |nodes|
    ensures nodes[k] in FreeSet(nodes)
  {
  }

  /** Two blocks do not overlap. */
  lemma Disjoint(base: nat, size: Links, nodes: seq<nat>, live: set<nat>, tag: Links, a: nat, b: nat)
    requires Shape(base, size, nodes, live, tag) && a in FreeSet(nodes) + live && b in FreeSet(nodes) + live && a < b
    ensures a in size && b in size && a + size[a] <= b
  {
    assert Holds(size, tag, a) && Holds(size, tag, b);
    assert b <= b < b + size[b] && tag[b] == b;
  }

  /** Free blocks neither overlap nor touch. */
  lemma FreeApart(base: nat, size: Links, nodes: seq<nat>, live: set<nat>, tag: Links, k: nat)
    requires Shape(base, size, nodes, live, tag) && Apart(size, nodes) && k + 1 < |nodes|
    ensures nodes[k] in size && nodes[k] + size[nodes[k]] < nodes[k + 1]
  {
    if k > 0 {
      NodeFree(nodes, k);
      NodeFree(nodes, k + 1);
      Disjoint(base, size, nodes, live, tag, nodes[k], nodes[k + 1]);
    }
    assert !Touch(size, nodes, k);
  }

  // ---------- inserting a node

  function Insert(nodes: seq<nat>, k: nat, b: nat): seq<nat>
    requires k < |nodes|
  {
    nodes[..k + 1] + [b] + nodes[k + 1..]
  }

  lemma InsertRing(ptr: Links, nodes: seq<nat>, k: nat, b: nat)
    requires Ring(ptr, nodes) && Ascending(nodes) && k < |nodes| && forall j: nat | j < |nodes| :: nodes[j] != b
    ensures Ring(ptr[b := nodes[Succ(|nodes|, k)]][nodes[k] := b], Insert(nodes, k, b))
  {
    var ptr' := ptr[b := nodes[Succ(|nodes|, k)]][nodes[k] := b];
    var ns := Insert(nodes, k, b);
    forall j: nat | j < |ns| ensures Linked(ptr', ns, j) {
      if j <= k {
        assert Linked(ptr, nodes, j);
        assert ns[j] == nodes[j];
      } else if j > k + 1 {
        assert Linked(ptr, nodes, j - 1);
        assert ns[j] == nodes[j - 1];
      }
    }
  }

  /** k is where b belongs. */
  ghost predicate Place(nodes: seq<nat>, k: nat, b: nat) {
    k < |nodes| && nodes[k] < b && (k + 1 < |nodes| ==> b < nodes[k + 1])
  }

  lemma InsertAscending(nodes: seq<nat>, k: nat, b: nat)
    requires Ascending(nodes) && Place(nodes, k, b)
    ensures Ascending(Insert(nodes, k, b)) && forall j: nat | j < |nodes| :: nodes[j] != b
  {
    forall j: nat | j < |nodes| ensures if j <= k then nodes[j] < b else b < nodes[j] {
    }
  }

  lemma InsertFree(nodes: seq<nat>, k: nat, b: nat)
    requires k < |nodes|
    ensures FreeSet(Insert(nodes, k, b)) == FreeSet(nodes) + {b}
  {
    var ns := Insert(nodes, k, b);
    assert forall j: nat | 1 <= j < |nodes| :: nodes[j] == ns[if j <= k then j else j + 1];
    assert forall j: nat | 1 <= j < |ns| ::
        ns[j] == if j <= k then nodes[j] else if j == k + 1 then b else nodes[j - 1];
    assert ns[k + 1] == b;
  }

  /** A live block becomes a free one. */
  lemma InsertShape(base: nat, size: Links, nodes: seq<nat>, live: set<nat>, tag: Links, k: nat, b: nat)
    requires Shape(base, size, nodes, live, tag) && Place(nodes, k, b) && b in live
    ensures Shape(base, size, Insert(nodes, k, b), live - {b}, tag)
  {
    InsertAscending(nodes, k, b);
    InsertFree(nodes, k, b);
    assert FreeSet(nodes) + {b} + (live - {b}) == FreeSet(nodes) + live;
  }

  // ---------- removing a node

  function Remove(nodes: seq<nat>, k: nat): seq<nat>
    requires k + 1 < |nodes|
  {
    nodes[..k + 1] + nodes[k + 2..]
  }

  lemma RemoveRing(ptr: Links, nodes: seq<nat>, k: nat)
    requires Ring(ptr, nodes) && Ascending(nodes) && k + 1 < |nodes|
    ensures nodes[k + 1] in ptr && Ring(ptr[nodes[k] := ptr[nodes[k + 1]]], Remove(nodes, k))
  {
    assert Linked(ptr, nodes, k + 1);
    var ptr' := ptr[nodes[k] := ptr[nodes[k + 1]]];
    var ns := Remove(nodes, k);
    assert Linked(ptr, nodes, k + 1);
    forall j: nat | j < |ns| ensures Linked(ptr', ns, j) {
      if j <= k {
        assert Linked(ptr, nodes, j);
        assert ns[j] == nodes[j];
      } else {
        assert Linked(ptr, nodes, j + 1);
        assert ns[j] == nodes[j + 1];
      }
    }
  }

  lemma RemoveAt(nodes: seq<nat>, k: nat)
    requires k + 1 < |nodes|
    ensures |Remove(nodes, k)| == |nodes| - 1
    ensures forall j: nat | j < |nodes| - 1 :: Remove(nodes, k)[j] == nodes[if j <= k then j else j + 1]
    ensures forall j: nat | j < |nodes| && j != k + 1 :: nodes[j] == Remove(nodes, k)[if j <= k then j else j - 1]
  {
  }

  lemma RemoveFree(nodes: seq<nat>, k: nat)
    requires Ascending(nodes) && k + 1 < |nodes|
    ensures FreeSet(Remove(nodes, k)) == FreeSet(nodes) - {nodes[k + 1]}
  {
    RemoveAt(nodes, k);
    hide Remove;
    var ns := Remove(nodes, k);
    forall b | b in FreeSet(ns) ensures b in FreeSet(nodes) && b != nodes[k + 1] {
    }
    forall b | b in FreeSet(nodes) && b != nodes[k + 1] ensures b in FreeSet(ns) {
    }
  }

  lemma RemoveAscending(nodes: seq<nat>, k: nat)
    requires Ascending(nodes) && k + 1 < |nodes|
    ensures Ascending(Remove(nodes, k))
  {
  }

  lemma RemoveApart(size: Links, nodes: seq<nat>, k: nat)
    requires Apart(size, nodes) && Ascending(nodes) && k + 1 < |nodes|
    requires nodes[k] in size && nodes[k] + size[nodes[k]] <= nodes[k + 1]
    ensures Apart(size, Remove(nodes, k))
  {
    var ns := Remove(nodes, k);
    forall j: nat | j + 1 < |ns| ensures !Touch(size, ns, j) {
      if j < k {
        assert !Touch(size, nodes, j);
      } else if j > k {
        assert !Touch(size, nodes, j + 1);
      }
    }
  }

  // ---------- merging two free blocks

  ghost function Retag(tag: Links, from: nat, to: nat): Links {
    map u | u in tag :: if tag[u] == from then to else tag[u]
  }

  function MergeSize(size: Links, a: nat, b: nat): Links
    requires a in size && b in size
  {
    size[a := size[a] + size[b]]
  }

  lemma MergeHolds(size: Links, tag: Links, a: nat, b: nat, c: nat)
    requires Holds(size, tag, a) && Holds(size, tag, b) && Holds(size, tag, c) && c != b && a + size[a] == b
    ensures Holds(MergeSize(size, a, b), Retag(tag, b, a), c)
  {
  }

  lemma MergeTagged(base: nat, size: Links, nodes: seq<nat>, live: set<nat>, tag: Links, k: nat)
    requires Shape(base, size, nodes, live, tag) && 1 <= k && k + 1 < |nodes| && Touch(size, nodes, k)
    ensures nodes[k + 1] in size
    ensures Tagged(MergeSize(size, nodes[k], nodes[k + 1]), Remove(nodes, k), live, Retag(tag, nodes[k + 1], nodes[k]))
  {
    var a, b := nodes[k], nodes[k + 1];
    NodeFree(nodes, k);
    NodeFree(nodes, k + 1);
    assert Holds(size, tag, a) && Holds(size, tag, b);
    RemoveFree(nodes, k);
    var size', tag' := MergeSize(size, a, b), Retag(tag, b, a);
    var heads, heads' := FreeSet(nodes) + live, FreeSet(Remove(nodes, k)) + live;
    assert heads' == heads - {b};
    hide Remove, FreeSet, Ascending, Touch;
    forall c | c in heads' ensures Holds(size', tag', c) {
      assert Holds(size, tag, c);
      MergeHolds(size, tag, a, b, c);
    }
    forall u | u in tag' ensures Within(size', tag', u) && tag'[u] in heads' {
      assert Within(size, tag, u);
    }
  }

  lemma MergeShape(base: nat, size: Links, nodes: seq<nat>, live: set<nat>, tag: Links, k: nat)
    requires Shape(base, size, nodes, live, tag) && 1 <= k && k + 1 < |nodes| && Touch(size, nodes, k)
    ensures nodes[k + 1] in size
    ensures Shape(base, MergeSize(size, nodes[k], nodes[k + 1]), Remove(nodes, k), live,
      Retag(tag, nodes[k + 1], nodes[k]))
  {
    MergeTagged(base, size, nodes, live, tag, k);
    RemoveAscending(nodes, k);
    hide Tagged;
  }

  /** After a merge, nodes touch as they did, and the merged one touches the next if its upper half did. */
  lemma MergeTouch(size: Links, nodes: seq<nat>, k: nat, j: nat)
    requires Ascending(nodes) && k + 1 < |nodes| && Touch(size, nodes, k) && nodes[k + 1] in size && j + 2 < |nodes|
    ensures j + 1 < |Remove(nodes, k)|
    ensures Touch(MergeSize(size, nodes[k], nodes[k + 1]), Remove(nodes, k), j)
       <==> Touch(size, nodes, if j < k then j else j + 1)
  {
    RemoveIdx(nodes, k, j);
    RemoveIdx(nodes, k, j + 1);
    hide Remove;
    assert j != k ==> nodes[j] != nodes[k] by { OneNode(nodes, j, k); }
    if j > k {
      OneNode(nodes, j + 1, k);
    }
    hide Ascending;
  }

  lemma OneNode(nodes: seq<nat>, j: nat, k: nat)
    requires Ascending(nodes) && j < |nodes| && k < |nodes|
    ensures nodes[j] == nodes[k] ==> j == k
  {
  }

  lemma RemoveIdx(nodes: seq<nat>, k: nat, j: nat)
    requires k + 1 < |nodes| && j + 1 < |nodes|
    ensures |Remove(nodes, k)| == |nodes| - 1 && Remove(nodes, k)[j] == nodes[if j <= k then j else j + 1]
  {
  }

  /** The only places where nodes may touch. */
  ghost predicate ApartBut(size: Links, nodes: seq<nat>, k: nat, l: nat) {
    forall j: nat | j + 1 < |nodes| && j != k && j != l :: !Touch(size, nodes, j)
  }

  lemma MergeApart(size: Links, nodes: seq<nat>, k: nat, l: nat)
    requires Ascending(nodes) && l + 1 < |nodes| && Touch(size, nodes, l) && nodes[l + 1] in size
    requires ApartBut(size, nodes, k, l) && k <= l
    ensures ApartBut(MergeSize(size, nodes[l], nodes[l + 1]), Remove(nodes, l), k, k)
  {
    var size', ns := MergeSize(size, nodes[l], nodes[l + 1]), Remove(nodes, l);
    RemoveAt(nodes, l);
    forall j: nat | j + 1 < |ns| && j != k ensures !Touch(size', ns, j) {
      MergeTouch(size, nodes, l, j);
    }
  }

  /** A block put between two nodes that did not touch can touch only them. */
  lemma InsertApart(size: Links, nodes: seq<nat>, k: nat, b: nat)
    requires Apart(size, nodes) && k < |nodes|
    ensures ApartBut(size, Insert(nodes, k, b), k, k + 1)
  {
    var ns := Insert(nodes, k, b);
    forall j: nat | j + 1 < |ns| && j != k && j != k + 1 ensures !Touch(size, ns, j) {
      if j < k {
        assert !Touch(size, nodes, j);
      } else {
        assert !Touch(size, nodes, j - 1);
      }
    }
  }

  // ---------- allocating

  /** The tail of a free block, n units long, becomes a live block. */
  lemma CarveTagged(base: nat, size: Links, nodes: seq<nat>, live: set<nat>, tag: Links, k: nat, n: nat, q: nat,
                    size': Links, tag': Links)
    requires Shape(base, size, nodes, live, tag) && 1 <= k < |nodes|
    requires nodes[k] in size && 0 < n < size[nodes[k]] && q == nodes[k] + size[nodes[k]] - n
    requires size' == size[nodes[k] := size[nodes[k]] - n][q := n]
    requires tag' == map u | u in tag :: if q <= u < q + n then q else tag[u]
    ensures Tagged(size', nodes, live + {q}, tag') && q !in FreeSet(nodes) + live
  {
    var p := nodes[k];
    NodeFree(nodes, k);
    assert Holds(size, tag, p);
    hide FreeSet, Ascending;
    assert tag[q] == p;
    assert q !in FreeSet(nodes) + live by { HeadTag(size, nodes, live, tag, q); }
    forall c | c in FreeSet(nodes) + (live + {q}) ensures Holds(size', tag', c) {
      if c != q {
        assert Holds(size, tag, c);
        CarveHolds(size, tag, p, n, q, size', tag', c);
      }
    }
    forall u | u in tag' ensures Within(size', tag', u) && tag'[u] in FreeSet(nodes) + (live + {q}) {
      assert Within(size, tag, u);
    }
  }

  lemma CarveHolds(size: Links, tag: Links, p: nat, n: nat, q: nat, size': Links, tag': Links, c: nat)
    requires Holds(size, tag, p) && Holds(size, tag, c) && c != q && 0 < n < size[p] && q == p + size[p] - n
    requires size' == size[p := size[p] - n][q := n]
    requires tag' == map u | u in tag :: if q <= u < q + n then q else tag[u]
    ensures Holds(size', tag', c)
  {
    forall u: nat | c <= u < c + size'[c] ensures u in tag' && tag'[u] == c {
      assert tag[u] == c;
    }
  }

  lemma HeadTag(size: Links, nodes: seq<nat>, live: set<nat>, tag: Links, b: nat)
    requires Tagged(size, nodes, live, tag)
    ensures b in FreeSet(nodes) + live ==> b in tag && tag[b] == b
  {
    hide FreeSet;
    if b in FreeSet(nodes) + live {
      assert Holds(size, tag, b);
    }
  }

  lemma CarveApart(size: Links, nodes: seq<nat>, k: nat, n: nat, q: nat, size': Links)
    requires Apart(size, nodes) && Ascending(nodes) && k < |nodes| && nodes[k] in size && 0 < n < size[nodes[k]]
    requires k + 1 < |nodes| ==> nodes[k] + size[nodes[k]] <= nodes[k + 1]
    requires size' == size[nodes[k] := size[nodes[k]] - n][q := n] && forall j: nat | j < |nodes| :: nodes[j] != q
    ensures Apart(size', nodes)
  {
    forall j: nat | j + 1 < |nodes| ensures !Touch(size', nodes, j) {
      assert !Touch(size, nodes, j);
    }
  }

  /** A whole free block becomes live. */
  lemma TakeTagged(base: nat, size: Links, nodes: seq<nat>, live: set<nat>, tag: Links, k: nat)
    requires Shape(base, size, nodes, live, tag) && k + 1 < |nodes|
    ensures Tagged(size, Remove(nodes, k), live + {nodes[k + 1]}, tag) && nodes[k + 1] !in live
  {
    NodeFree(nodes, k + 1);
    RemoveFree(nodes, k);
    assert FreeSet(nodes) - {nodes[k + 1]} + (live + {nodes[k + 1]}) == FreeSet(nodes) + live;
  }

  /** Fresh units from sbrk become a live block. */
  lemma CoreTagged(base: nat, size: Links, nodes: seq<nat>, live: set<nat>, tag: Links, hp: nat, nu: nat, tag': Links)
    requires Shape(base, size, nodes, live, tag) && nu > 0 && base < hp && forall u | u in tag :: u < hp
    requires tag' == tag + map u: nat | hp <= u < hp + nu && InCore(hp, u) :: hp
    ensures Shape(base, size[hp := nu], nodes, live + {hp}, tag') && hp !in FreeSet(nodes) + live
  {
    HeadTag(size, nodes, live, tag, hp);
    hide FreeSet, Ascending;
    var size' := size[hp := nu];
    CoreUnits(tag, hp, nu, tag');
    forall c | c in FreeSet(nodes) + (live + {hp}) ensures Holds(size', tag', c) {
      if c != hp {
        assert Holds(size, tag, c);
      }
    }
    forall u | u in tag' ensures Within(size', tag', u) && tag'[u] in FreeSet(nodes) + (live + {hp}) {
      if u in tag {
        assert Within(size, tag, u);
        HeadTag(size, nodes, live, tag, tag[u]);
      }
    }
  }

  lemma CoreUnits(tag: Links, hp: nat, nu: nat, tag': Links)
    requires tag' == tag + map u: nat | hp <= u < hp + nu && InCore(hp, u) :: hp
    requires forall u | u in tag :: u < hp
    ensures forall u | u in tag :: u in tag' && tag'[u] == tag[u]
    ensures forall u: nat | hp <= u < hp + nu :: u in tag' && tag'[u] == hp
    ensures forall u | u in tag' :: u in tag || hp <= u < hp + nu
  {
    assert forall u: nat | u >= hp :: InCore(hp, u);
  }

  ghost predicate InCore(hp: nat, u: nat) { hp <= u }
}
