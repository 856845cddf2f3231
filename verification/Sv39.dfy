/** Sv39 page tables (section 4.4 of the RISC-V Privileged Architecture, version 20211203): three levels of
    tables of 512 words refine a flat map from virtual page numbers to leaf entries. */
module Sv39 {
  const PGSIZE: nat := 4096
  const MAXVA: nat := 0x40_0000_0000      // 1 << 38
  const PTE_V: nat := 1

  type Table = t: seq<nat> | |t| == 512 witness seq(512, _ => 0)

  function ZeroTable(): Table { seq(512, _ => 0) }

  // ---------- words

  /** PA2PTE(pa) | flags, with PTE_V set. */
  function PteOf(pa: nat, flags: nat): (w: nat)
    requires flags < 1024
  {
    pa / PGSIZE * 1024 + (if flags % 2 == 1 then flags else flags + PTE_V)
  }

  function Pa(w: nat): nat { w / 1024 * PGSIZE }

  function Flags(w: nat): nat { w % 1024 }

  predicate Valid(w: nat) { w % 2 == 1 }

  /** An entry gives back the page it was made of and its flags. */
  lemma PteRoundTrip(pa: nat, flags: nat)
    requires flags < 1024
    ensures var w := PteOf(pa, flags);
      && Valid(w) && Pa(w) == pa - pa % PGSIZE
      && Flags(w) == (if flags % 2 == 1 then flags else flags + 1)
  {
    var f := if flags % 2 == 1 then flags else flags + PTE_V;
    Packed(pa / PGSIZE, f);
    assert pa == pa / PGSIZE * PGSIZE + pa % PGSIZE;
  }

  /** A page number above ten bits of flags. */
  lemma Packed(n: nat, f: nat)
    requires f < 1024
    ensures (n * 1024 + f) / 1024 == n && (n * 1024 + f) % 1024 == f && (n * 1024 + f) % 2 == f % 2
  {
  }

  // ---------- indices

  /** The virtual page number without its lowest l index fields. */
  function Prefix(v: nat, l: nat): nat
    requires l <= 3
  {
    if l == 0 then v else if l == 1 then v / 512 else if l == 2 then v / 262144 else v / 134217728
  }

  function Shift(l: nat): nat
    requires l <= 2
  {
    if l == 0 then 4096 else if l == 1 then 2097152 else 1073741824
  }

  /** The 9-bit index of address va at level l. */
  function Px(l: nat, va: nat): (i: nat)
    requires l <= 2
    ensures i < 512
  {
    va / Shift(l) % 512
  }

  lemma PrefixStep(v: nat, l: nat)
    requires l <= 2
    ensures Prefix(v, l + 1) == Prefix(v, l) / 512
    ensures Prefix(v, l) == Prefix(v, l + 1) * 512 + Prefix(v, l) % 512
  {
  }

  lemma PxIsPrefix(l: nat, va: nat)
    requires l <= 2
    ensures Px(l, va) == Prefix(va / PGSIZE, l) % 512
  {
  }

  lemma BelowMax(va: nat)
    requires va < MAXVA
    ensures Prefix(va / PGSIZE, 3) == 0
  {
  }

  /** Three equal indices, below MAXVA, mean the same page. */
  lemma IndicesDetermine(va: nat, vb: nat)
    requires va < MAXVA && vb < MAXVA
    ensures (Px(0, va) == Px(0, vb) && Px(1, va) == Px(1, vb) && Px(2, va) == Px(2, vb))
       <==> va / PGSIZE == vb / PGSIZE
  {
    forall a: nat | a == va || a == vb
      ensures var v := a / PGSIZE; v == (Px(2, a) * 512 + Px(1, a)) * 512 + Px(0, a)
    {
      BelowMax(a);
      PxIsPrefix(0, a); PxIsPrefix(1, a); PxIsPrefix(2, a);
      PrefixStep(a / PGSIZE, 0); PrefixStep(a / PGSIZE, 1); PrefixStep(a / PGSIZE, 2);
    }
    if va / PGSIZE == vb / PGSIZE {
      PxIsPrefix(0, va); PxIsPrefix(1, va); PxIsPrefix(2, va);
      PxIsPrefix(0, vb); PxIsPrefix(1, vb); PxIsPrefix(2, vb);
    }
  }

  // ---------- the tree

  /** A table of the tree: its level, and the page-number prefix of everything below it. */
  type Node = (nat, nat)

  type Nodes = map<Node, nat>

  function Child(n: Node, i: nat): Node
    requires n.0 > 0
  {
    (n.0 - 1, n.1 * 512 + i)
  }

  ghost predicate Placed(root: nat, tables: map<nat, Table>, node: Nodes) {
    && (2, 0) in node && node[(2, 0)] == root
    && (forall n | n in node :: n.0 <= 2 && node[n] in tables)
    && (forall n, m | n in node && m in node && node[n] == node[m] :: n == m)
    && (forall n | n in node && n.0 == 2 :: n.1 == 0)
  }

  /** The words of inner tables are valid exactly where there is a table below, and then point to it. */
  ghost predicate Linked(tables: map<nat, Table>, node: Nodes) {
    forall n, i: nat {:trigger Child(n, i)} | n in node && n.0 > 0 && i < 512 && node[n] in tables ::
      LinkOk(tables[node[n]][i], Child(n, i), node)
  }

  ghost predicate LinkOk(w: nat, c: Node, node: Nodes) {
    && (Valid(w) <==> c in node)
    && (c in node ==> Pa(w) == node[c])
  }

  ghost predicate Shape(root: nat, tables: map<nat, Table>, node: Nodes) {
    Placed(root, tables, node) && Linked(tables, node) && Closed(node)
  }

  /** The leaf word of virtual page v, 0 where no table reaches it. */
  ghost function Entry(tables: map<nat, Table>, node: Nodes, v: nat): nat {
    if (0, v / 512) in node && node[(0, v / 512)] in tables then tables[node[(0, v / 512)]][v % 512] else 0
  }

  /** The flat map the tree stands for. */
  ghost function Flat(tables: map<nat, Table>, node: Nodes): map<nat, nat> {
    map v: nat | v < 0x800_0000 && Valid(Entry(tables, node, v)) :: Entry(tables, node, v)
  }

  // ---------- growing the tree

  ghost predicate Grown(tables: map<nat, Table>, node: Nodes, n: Node, i: nat, y: nat,
                        tables': map<nat, Table>, node': Nodes)
  {
    && n in node && n.0 > 0 && i < 512 && node[n] in tables
    && Child(n, i) !in node && y !in tables && y % PGSIZE == 0
    && tables' == tables[y := ZeroTable()][node[n] := tables[node[n]][i := PteOf(y, 0)]]
    && node' == node[Child(n, i) := y]
  }

  lemma ChildInjective(n: Node, i: nat, m: Node, j: nat)
    requires n.0 > 0 && m.0 > 0 && i < 512 && j < 512 && Child(n, i) == Child(m, j)
    ensures n == m && i == j
  {
  }

  lemma GrownPlaced(root: nat, tables: map<nat, Table>, node: Nodes, n: Node, i: nat, y: nat,
                    tables': map<nat, Table>, node': Nodes)
    requires Placed(root, tables, node) && Grown(tables, node, n, i, y, tables', node')
    ensures Placed(root, tables', node')
  {
    hide ZeroTable;
  }

  lemma GrownLinked(root: nat, tables: map<nat, Table>, node: Nodes, n: Node, i: nat, y: nat,
                    tables': map<nat, Table>, node': Nodes)
    requires Shape(root, tables, node) && Grown(tables, node, n, i, y, tables', node')
    ensures Linked(tables', node')
  {
    PteRoundTrip(y, 0);
    var c := Child(n, i);
    forall m, j: nat | m in node' && m.0 > 0 && j < 512 && node'[m] in tables'
      ensures LinkOk(tables'[node'[m]][j], Child(m, j), node')
    {
      if m == c {
        assert tables'[node'[m]] == ZeroTable();
        ClosedChild(node, n, i, j);
      } else {
        assert LinkOk(tables[node[m]][j], Child(m, j), node);
        if m == n && j == i {
        } else {
          assert Child(m, j) != c by { if Child(m, j) == c { ChildInjective(m, j, n, i); } }
        }
      }
    }
  }

  /** Every table but the root hangs below another. */
  ghost predicate Closed(node: Nodes) {
    forall n | n in node && n.0 < 2 :: (n.0 + 1, n.1 / 512) in node
  }

  lemma ClosedChild(node: Nodes, n: Node, i: nat, j: nat)
    requires Closed(node) && n in node && n.0 > 0 && i < 512 && j < 512 && Child(n, i) !in node && Child(n, i).0 > 0
    requires n.0 <= 2
    ensures Child(Child(n, i), j) !in node && Child(Child(n, i), j) != Child(n, i)
  {
    var c := Child(n, i);
    var d := Child(c, j);
    assert d.1 / 512 == c.1;
    assert (d.0 + 1, d.1 / 512) == c;
  }

  lemma GrownClosed(root: nat, tables: map<nat, Table>, node: Nodes, n: Node, i: nat, y: nat,
                    tables': map<nat, Table>, node': Nodes)
    requires Shape(root, tables, node) && Grown(tables, node, n, i, y, tables', node')
    ensures Closed(node')
  {
    hide Linked, ZeroTable;
    var c := Child(n, i);
    assert c.1 / 512 == n.1;
  }

  ghost predicate SameFlat(tables: map<nat, Table>, node: Nodes, tables': map<nat, Table>, node': Nodes) {
    forall v: nat :: Entry(tables', node', v) == Entry(tables, node, v)
  }

  /** A new empty table changes no translation. */
  lemma GrownFlat(root: nat, tables: map<nat, Table>, node: Nodes, n: Node, i: nat, y: nat,
                  tables': map<nat, Table>, node': Nodes)
    requires Shape(root, tables, node) && Grown(tables, node, n, i, y, tables', node')
    ensures SameFlat(tables, node, tables', node')
  {
    hide Linked, Closed;
    forall v: nat ensures Entry(tables', node', v) == Entry(tables, node, v) {
      if (0, v / 512) in node {
        assert node[(0, v / 512)] != node[n];
      }
    }
  }

  lemma GrownShape(root: nat, tables: map<nat, Table>, node: Nodes, n: Node, i: nat, y: nat,
                   tables': map<nat, Table>, node': Nodes)
    requires Shape(root, tables, node) && Grown(tables, node, n, i, y, tables', node')
    ensures Shape(root, tables', node') && SameFlat(tables, node, tables', node')
  {
    hide Placed, Linked, Closed, Grown, SameFlat;
    GrownPlaced(root, tables, node, n, i, y, tables', node');
    GrownLinked(root, tables, node, n, i, y, tables', node');
    GrownClosed(root, tables, node, n, i, y, tables', node');
    GrownFlat(root, tables, node, n, i, y, tables', node');
  }

  // ---------- writing a leaf

  ghost predicate LeafSet(tables: map<nat, Table>, node: Nodes, v: nat, w: nat, tables': map<nat, Table>) {
    && (0, v / 512) in node && node[(0, v / 512)] in tables
    && tables' == tables[node[(0, v / 512)] := tables[node[(0, v / 512)]][v % 512 := w]]
  }

  /** Storing a leaf word changes the translation of its own page and of no other. */
  lemma LeafSetShape(root: nat, tables: map<nat, Table>, node: Nodes, v: nat, w: nat, tables': map<nat, Table>)
    requires Shape(root, tables, node) && LeafSet(tables, node, v, w, tables')
    ensures Shape(root, tables', node)
    ensures forall u: nat :: Entry(tables', node, u) == if u == v then w else Entry(tables, node, u)
  {
    LeafSetLinked(root, tables, node, v, w, tables');
    forall u: nat ensures Entry(tables', node, u) == if u == v then w else Entry(tables, node, u) {
      if (0, u / 512) in node && u / 512 != v / 512 {
        assert node[(0, u / 512)] != node[(0, v / 512)];
      }
    }
  }

  lemma LeafSetLinked(root: nat, tables: map<nat, Table>, node: Nodes, v: nat, w: nat, tables': map<nat, Table>)
    requires Shape(root, tables, node) && LeafSet(tables, node, v, w, tables')
    ensures Linked(tables', node)
  {
    forall m, j: nat | m in node && m.0 > 0 && j < 512 && node[m] in tables'
      ensures LinkOk(tables'[node[m]][j], Child(m, j), node)
    {
      assert node[m] != node[(0, v / 512)];
      assert LinkOk(tables[node[m]][j], Child(m, j), node);
    }
  }

  /** Two addresses below MAXVA have the same leaf slot exactly when they are on the same page. */
  lemma SlotShared(root: nat, tables: map<nat, Table>, node: Nodes, va: nat, vb: nat)
    requires Shape(root, tables, node) && va < MAXVA && vb < MAXVA
    requires (0, va / PGSIZE / 512) in node && (0, vb / PGSIZE / 512) in node
    ensures (node[(0, va / PGSIZE / 512)], Px(0, va)) == (node[(0, vb / PGSIZE / 512)], Px(0, vb))
       <==> va / PGSIZE == vb / PGSIZE
  {
    hide Linked, Closed;
    PxIsPrefix(0, va);
    PxIsPrefix(0, vb);
  }

  lemma Unreached(node: Nodes, v: nat, l: nat)
    requires Closed(node) && 1 <= l <= 2 && (l - 1, Prefix(v, l)) !in node
    ensures (0, v / 512) !in node
  {
    PrefixStep(v, 1);
  }

  // ---------- the flat map

  lemma FlatSame(tables: map<nat, Table>, node: Nodes, tables': map<nat, Table>, node': Nodes)
    requires SameFlat(tables, node, tables', node')
    ensures Flat(tables', node') == Flat(tables, node)
  {
  }

  lemma FlatSet(tables: map<nat, Table>, node: Nodes, tables': map<nat, Table>, v: nat, w: nat)
    requires v < 0x800_0000 && forall u: nat :: Entry(tables', node, u) == if u == v then w else Entry(tables, node, u)
    ensures Flat(tables', node) == if Valid(w) then Flat(tables, node)[v := w] else Flat(tables, node) - {v}
  {
    hide Entry;
  }

  /** n consecutive pages from page v on, at consecutive physical pages. */
  ghost function Span(m: map<nat, nat>, v: nat, n: nat, pa: nat, perm: nat): map<nat, nat>
    requires perm < 1024
  {
    m + map u: nat | v <= u < v + n && InSpan(v, u, n) :: SpanWord(v, u, pa, perm)
  }

  ghost function SpanWord(v: nat, u: nat, pa: nat, perm: nat): nat
    requires v <= u && perm < 1024
  {
    PteOf(pa + (u - v) * PGSIZE, perm)
  }

  ghost predicate InSpan(v: nat, u: nat, n: nat) {
    v <= u < v + n
  }

  ghost function Range(v: nat, n: nat): set<nat> {
    set u: nat | v <= u < v + n && InSpan(v, u, n)
  }

  lemma SpanStep(m: map<nat, nat>, v: nat, n: nat, pa: nat, perm: nat)
    requires perm < 1024
    ensures Span(m, v, n, pa, perm)[v + n := PteOf(pa + n * PGSIZE, perm)] == Span(m, v, n + 1, pa, perm)
  {
    assert SpanWord(v, v + n, pa, perm) == PteOf(pa + n * PGSIZE, perm);
    hide SpanWord, PteOf;
    assert InSpan(v, v + n, n + 1);
    assert forall u: nat :: InSpan(v, u, n + 1) == (InSpan(v, u, n) || u == v + n);
  }

  // ---------- the code

  class PageTable {
    const root: nat
    var tables: map<nat, Table>
    var pool: seq<nat>              // what kalloc hands out next
    var released: seq<nat>          // the pages given to kfree
    ghost var node: Nodes

    ghost predicate Good()
      reads this
    {
      && Shape(root, tables, node)
      && (forall k: nat | k < |pool| :: pool[k] !in tables && pool[k] % PGSIZE == 0)
      && (forall k: nat, l: nat | k < l < |pool| :: pool[k] != pool[l])
    }

    ghost function Translation(): map<nat, nat>
      reads this
    {
      Flat(tables, node)
    }

    /** The body of walk's loop where the next table is missing. */
    method NewTable(ghost n: Node, t: nat, i: nat) returns (y: nat)
      requires Good() && n in node && node[n] == t && n.0 > 0 && i < 512 && Child(n, i) !in node && pool != []
      modifies this
      ensures Good() && node == old(node)[Child(n, i) := y] && SameFlat(old(tables), old(node), tables, node)
      ensures pool == old(pool)[1..] && released == old(released)
    {
      y := pool[0];
      pool := pool[1..];
      ghost var was, nodes := tables, node;
      var zero := ZeroTable();
      tables := tables[y := zero];
      tables := tables[t := tables[t][i := PteOf(y, 0)]];
      node := node[Child(n, i) := y];
      assert Grown(was, nodes, n, i, y, tables, node);
      GrownShape(root, was, nodes, n, i, y, tables, node);
    }

    /** walk: the leaf slot of va, as a table and an index.  With alloc it builds missing tables, and fails only
        when no page is left; without, it fails exactly when the slot's table is missing.  No translation changes. */
    method Walk(va: nat, alloc: bool) returns (found: bool, t: nat, i: nat)
      requires Good() && va < MAXVA
      modifies this
      ensures Good() && SameFlat(old(tables), old(node), tables, node) && Translation() == old(Translation())
      ensures found ==> (0, va / PGSIZE / 512) in node && t == node[(0, va / PGSIZE / 512)] && i == va / PGSIZE % 512
      ensures !alloc ==> tables == old(tables) && node == old(node) && pool == old(pool)
      ensures !alloc ==> (found <==> (0, va / PGSIZE / 512) in node)
      ensures !found && alloc ==> pool == []
      ensures released == old(released) && |pool| <= |old(pool)| && pool == old(pool)[|old(pool)| - |pool|..]
    {
      hide Flat, Linked, Placed;
      ghost var v := va / PGSIZE;
      var level := 2;
      t := root;
      BelowMax(va);
      RootNode(root, tables, node);
      FlatSame(tables, node, tables, node);
      while level > 0
        invariant level <= 2 && Good() && (level as nat, Prefix(v, level + 1)) in node
        invariant t == node[(level as nat, Prefix(v, level + 1))]
        invariant SameFlat(old(tables), old(node), tables, node)
        invariant !alloc ==> tables == old(tables) && node == old(node) && pool == old(pool)
        invariant released == old(released) && |pool| <= |old(pool)| && pool == old(pool)[|old(pool)| - |pool|..]
      {
        ghost var n: Node := (level as nat, Prefix(v, level + 1));
        i := Px(level, va);
        PxIsPrefix(level, va);
        PrefixStep(v, level);
        LinkAt(root, tables, node, n, i);
        assert Child(n, i) == (level - 1, Prefix(v, level));
        if Valid(tables[t][i]) {
          t := Pa(tables[t][i]);
        } else {
          if !alloc || pool == [] {
            Unreached(node, v, level);
            FlatSame(old(tables), old(node), tables, node);
            return false, 0, 0;
          }
          t := NewTable(n, t, i);
        }
        level := level - 1;
      }
      FlatSame(old(tables), old(node), tables, node);
      i := Px(0, va);
      PxIsPrefix(0, va);
      return true, t, i;
    }

    /** *pte = w at the slot walk returned. */
    method SetPte(t: nat, i: nat, w: nat, ghost v: nat)
      requires Good() && v < 0x800_0000 && (0, v / 512) in node && t == node[(0, v / 512)] && i == v % 512
      modifies this`tables
      ensures Good()
      ensures Translation() == if Valid(w) then old(Translation())[v := w] else old(Translation()) - {v}
    {
      hide Flat;
      ghost var was := tables;
      LeafPlaced(root, tables, node, v);
      tables := tables[t := tables[t][i := w]];
      LeafSetShape(root, was, node, v, w, tables);
      FlatSet(was, node, tables, v, w);
    }

    /** mappages: on success exactly the pages of va..va+size, at consecutive physical pages; when tables cannot be
        had, the first done pages of them. */
    method Mappages(va: nat, size: nat, pa: nat, perm: nat) returns (r: int, ghost done: nat)
      requires Good() && size > 0 && va + size <= MAXVA && perm < 1024
      requires forall v: nat | InSpan(va / PGSIZE, v, PageCount(va, size)) :: v !in Translation()
      modifies this
      ensures Good() && (r == 0 || r == -1) && released == old(released)
      ensures r == 0 ==> done == PageCount(va, size)
      ensures r == -1 ==> done < PageCount(va, size) && pool == []
      ensures Translation() == Span(old(Translation()), va / PGSIZE, done, pa, perm)
      ensures |pool| <= |old(pool)| && pool == old(pool)[|old(pool)| - |pool|..]
    {
      hide Shape, Flat, Linked, Placed, Span, PteOf, SameFlat;
      ghost var first := va / PGSIZE;
      var a, last, p := va - va % PGSIZE, va + size - 1 - (va + size - 1) % PGSIZE, pa;
      done := 0;
      SpanNone(Translation(), first, pa, perm);
      while true
        invariant a == (first + done) * PGSIZE && p == pa + done * PGSIZE && a <= last
        invariant Good() && released == old(released)
        invariant Translation() == Span(old(Translation()), first, done, pa, perm)
        invariant |pool| <= |old(pool)| && pool == old(pool)[|old(pool)| - |pool|..]
        decreases last - a
      {
        var found, t, i := Walk(a, true);
        if !found {
          return -1, done;
        }
        PteRoundTrip(p, perm);
        SetPte(t, i, PteOf(p, perm), first + done);
        SpanStep(old(Translation()), first, done, pa, perm);
        done := done + 1;
        if a == last {
          break;
        }
        a, p := a + PGSIZE, p + PGSIZE;
      }
      return 0, done;
    }

    /** One pass of uvmunmap, at the page of the address a. */
    method UnmapOne(a: nat, doFree: bool)
      requires Good() && a < MAXVA && a / PGSIZE in Translation()
      modifies this
      ensures Good() && Translation() == old(Translation()) - {a / PGSIZE} && pool == old(pool)
      ensures released == old(released) + if doFree then [Pa(old(Translation())[a / PGSIZE])] else []
    {
      hide Shape, Flat, Linked, Placed, SameFlat, Pa;
      ghost var v := a / PGSIZE;
      LeafWord(root, tables, node, v);
      var found, t, i := Walk(a, false);
      if doFree {
        released := released + [Pa(tables[t][i])];
      }
      SetPte(t, i, 0, v);
    }

    /** uvmunmap: exactly the npages pages from va lose their translation; with do_free their pages are freed,
        in order. */
    method Uvmunmap(va: nat, npages: nat, doFree: bool)
      requires Good() && va % PGSIZE == 0 && va + npages * PGSIZE <= MAXVA
      requires forall v: nat | InSpan(va / PGSIZE, v, npages) ::
        v in Translation() && Flags(Translation()[v]) != PTE_V
      modifies this
      ensures Good() && Translation() == old(Translation()) - Range(va / PGSIZE, npages) && pool == old(pool)
      ensures released == old(released) + if doFree then Targets(old(Translation()), va / PGSIZE, npages) else []
    {
      hide Shape, Flat, Linked, Placed, SameFlat, Targets, Range, Flags, Pa;
      ghost var first := va / PGSIZE;
      var a := va;
      ghost var done := 0;
      NoneRemoved(Translation(), first);
      TargetsNone(Translation(), first);
      while a < va + npages * PGSIZE
        invariant a == va + done * PGSIZE && done <= npages && Good() && pool == old(pool)
        invariant Translation() == old(Translation()) - Range(first, done)
        invariant released == old(released) + if doFree then Targets(old(Translation()), first, done) else []
        decreases npages - done
      {
        assert InSpan(first, first + done, npages);
        RangeStep(old(Translation()), first, done);
        PageAt(va, done);
        UnmapOne(a, doFree);
        TargetsStep(old(Translation()), first, done);
        done := done + 1;
        a := a + PGSIZE;
      }
    }

    /** uvmcreate: an empty root table. */
    constructor (root: nat, pool: seq<nat>)
      requires forall k: nat | k < |pool| :: pool[k] != root && pool[k] % PGSIZE == 0
      requires forall k: nat, l: nat | k < l < |pool| :: pool[k] != pool[l]
      ensures Good() && Translation() == map[] && this.pool == pool
    {
      this.root, this.pool, released := root, pool, [];
      tables := map[root := ZeroTable()];
      node := map[(2, 0) := root];
      new;
      EmptyShape(root, tables, node);
    }

    /** walkaddr: the physical page of a user-accessible address, 0 for any other. */
    method Walkaddr(va: nat) returns (pa: nat)
      requires Good()
      modifies this
      ensures Good() && tables == old(tables) && node == old(node) && pool == old(pool) && released == old(released)
      ensures pa == Lookup(Translation(), va)
    {
      hide Shape, Flat, SameFlat;
      if va >= MAXVA {
        return 0;
      }
      var found, t, i := Walk(va, false);
      SlotWord(root, tables, node, va / PGSIZE);
      if !found {
        return 0;
      }
      if !Valid(tables[t][i]) {
        return 0;
      }
      if tables[t][i] / PTE_U % 2 == 0 {
        return 0;
      }
      return Pa(tables[t][i]);
    }

    /** The body of uvmalloc's loop: one fresh page, entered at virtual page v. */
    method GrowOne(v: nat, perm: nat) returns (ok: bool, y: nat)
      requires Good() && (v + 1) * PGSIZE <= MAXVA && perm < 1024 && v !in Translation()
      modifies this
      ensures Good() && |pool| <= |old(pool)| && pool == old(pool)[|old(pool)| - |pool|..]
      ensures Translation() == if ok then old(Translation())[v := PteOf(y, perm)] else old(Translation())
      ensures ok ==> |pool| < |old(pool)| && y == old(pool)[0] && released == old(released)
      ensures !ok ==> pool == [] && released == old(released) + old(pool)[..if |old(pool)| == 0 then 0 else 1]
    {
      hide Shape, Flat, Span, PteOf;
      if pool == [] {
        return false, 0;
      }
      y := pool[0];
      pool := pool[1..];
      assert PageCount(v * PGSIZE, PGSIZE) == 1;
      ghost var done;
      var r;
      assert forall u: nat | InSpan(v, u, 1) :: u == v;
      r, done := Mappages(v * PGSIZE, PGSIZE, y, perm);
      SpanNone(old(Translation()), v, y, perm);
      SpanStep(old(Translation()), v, 0, y, perm);
      if r != 0 {
        released := released + [y];
        return false, 0;
      }
      return true, y;
    }

    /** uvmalloc: every page between the sizes is entered, at distinct pages that were free, or the free pages run
        out and the translation is as it was. */
    method Uvmalloc(oldsz: nat, newsz: nat, xperm: nat) returns (r: nat, ghost ys: seq<nat>)
      requires Good() && newsz <= MAXVA && xperm in {0, 4, 8, 12}
      requires forall v: nat | RoundUp(oldsz) <= v < RoundUp(newsz) :: v !in Translation()
      modifies this
      ensures Good()
      ensures newsz < oldsz ==> r == oldsz && Translation() == old(Translation())
      ensures newsz >= oldsz ==> (r == newsz || r == 0)
      ensures newsz >= oldsz && r == newsz ==> |ys| == RoundUp(newsz) - RoundUp(oldsz)
      ensures newsz >= oldsz && r == newsz ==>
        Translation() == Allotted(old(Translation()), RoundUp(oldsz), ys, PTE_R + PTE_U + xperm)
      ensures newsz >= oldsz && r != newsz ==> Translation() == old(Translation()) && pool == []
      ensures forall k: nat, l: nat | k < l < |ys| :: ys[k] != ys[l]
      ensures forall k: nat | k < |ys| :: ys[k] in old(pool) && ys[k] !in pool
    {
      hide Shape, Flat, PteOf, Allotted, Range;
      ys := [];
      if newsz < oldsz {
        return oldsz, [];
      }
      var first, perm := RoundUp(oldsz), PTE_R + PTE_U + xperm;
      var v := first;
      AllottedNone(Translation(), first, perm);
      while v * PGSIZE < newsz
        invariant first <= v <= RoundUp(newsz) && |ys| == v - first && Good()
        invariant Translation() == Allotted(old(Translation()), first, ys, perm)
        invariant Distinct(ys, pool) && forall k: nat | k < |ys| :: ys[k] in old(pool)
        invariant |pool| <= |old(pool)| && pool == old(pool)[|old(pool)| - |pool|..]
      {
        AllottedDomain(old(Translation()), first, ys, perm);
        ghost var before := pool;
        var ok, y := GrowOne(v, perm);
        if !ok {
          AllottedRemoved(old(Translation()), first, ys, perm);
          Uvmunmap(first * PGSIZE, v - first, true);
          return 0, [];
        }
        AllottedStep(old(Translation()), first, ys, perm, y);
        DistinctStep(ys, before, pool);
        ys := ys + [y];
        v := v + 1;
      }
      return newsz, ys;
    }
  }

  const PTE_R: nat := 2
  const PTE_U: nat := 16

  /** What walkaddr finds in a flat map. */
  ghost function Lookup(m: map<nat, nat>, va: nat): nat {
    var v := va / PGSIZE;
    if va < MAXVA && v in m && m[v] / PTE_U % 2 == 1 then Pa(m[v]) else 0
  }

  lemma SlotWord(root: nat, tables: map<nat, Table>, node: Nodes, v: nat)
    requires Shape(root, tables, node) && v < 0x800_0000
    ensures (0, v / 512) !in node ==> v !in Flat(tables, node)
    ensures (0, v / 512) in node ==> node[(0, v / 512)] in tables
    ensures (0, v / 512) in node ==> (Valid(tables[node[(0, v / 512)]][v % 512]) <==> v in Flat(tables, node))
    ensures (0, v / 512) in node && v in Flat(tables, node) ==>
      Flat(tables, node)[v] == tables[node[(0, v / 512)]][v % 512]
  {
    hide Linked, Closed;
  }

  lemma EmptyShape(root: nat, tables: map<nat, Table>, node: Nodes)
    requires tables == map[root := ZeroTable()] && node == map[(2, 0) := root]
    ensures Shape(root, tables, node) && Flat(tables, node) == map[]
  {
    assert forall v: nat :: (0, v / 512) !in node;
  }

  /** PGROUNDUP, in pages. */
  function RoundUp(sz: nat): nat {
    (sz + PGSIZE - 1) / PGSIZE
  }

  /** Consecutive virtual pages from v at the pages ys. */
  ghost function Allotted(m: map<nat, nat>, v: nat, ys: seq<nat>, perm: nat): map<nat, nat>
    requires perm < 1024
  {
    m + map u: nat | v <= u < v + |ys| && InSpan(v, u, |ys|) :: PteOf(ys[u - v], perm)
  }

  lemma AllottedNone(m: map<nat, nat>, v: nat, perm: nat)
    requires perm < 1024
    ensures Allotted(m, v, [], perm) == m
  {
  }

  lemma AllottedStep(m: map<nat, nat>, v: nat, ys: seq<nat>, perm: nat, y: nat)
    requires perm < 1024
    ensures Allotted(m, v, ys, perm)[v + |ys| := PteOf(y, perm)] == Allotted(m, v, ys + [y], perm)
  {
    hide PteOf;
    assert InSpan(v, v + |ys|, |ys| + 1);
    assert forall u: nat :: InSpan(v, u, |ys| + 1) == (InSpan(v, u, |ys|) || u == v + |ys|);
  }

  lemma AllottedDomain(m: map<nat, nat>, v: nat, ys: seq<nat>, perm: nat)
    requires perm < 1024
    ensures forall u: nat :: u in Allotted(m, v, ys, perm) <==> u in m || InSpan(v, u, |ys|)
  {
  }

  lemma AllottedRemoved(m: map<nat, nat>, v: nat, ys: seq<nat>, perm: nat)
    requires 2 <= perm < 1024 && forall u: nat | InSpan(v, u, |ys|) :: u !in m
    ensures Allotted(m, v, ys, perm) - Range(v, |ys|) == m
    ensures forall u: nat | InSpan(v, u, |ys|) ::
      u in Allotted(m, v, ys, perm) && Flags(Allotted(m, v, ys, perm)[u]) != PTE_V
  {
    forall u: nat | InSpan(v, u, |ys|)
      ensures u in Allotted(m, v, ys, perm) && Flags(Allotted(m, v, ys, perm)[u]) != PTE_V
    {
      PteRoundTrip(ys[u - v], perm);
    }
  }

  ghost predicate Distinct(ys: seq<nat>, pool: seq<nat>) {
    && (forall k: nat, l: nat | k < l < |ys| :: ys[k] != ys[l])
    && (forall k: nat, l: nat | k < |ys| && l < |pool| :: ys[k] != pool[l])
  }

  lemma DistinctStep(ys: seq<nat>, pool: seq<nat>, pool': seq<nat>)
    requires Distinct(ys, pool) && |pool'| < |pool| && pool' == pool[|pool| - |pool'|..]
    requires forall k: nat, l: nat | k < l < |pool| :: pool[k] != pool[l]
    ensures Distinct(ys + [pool[0]], pool')
  {
    assert forall l: nat | l < |pool'| :: pool'[l] == pool[|pool| - |pool'| + l];
  }

  /** The pages that size bytes at va touch. */
  function PageCount(va: nat, size: nat): nat
    requires size > 0
  {
    (va + size - 1) / PGSIZE - va / PGSIZE + 1
  }

  /** The physical pages behind n pages from page v. */
  ghost function Targets(m: map<nat, nat>, v: nat, n: nat): seq<nat>
    decreases n
  {
    if n == 0 then [] else Targets(m, v, n - 1) + (if v + n - 1 in m then [Pa(m[v + n - 1])] else [])
  }

  lemma TargetsNone(m: map<nat, nat>, v: nat)
    ensures Targets(m, v, 0) == []
  {
  }

  lemma TargetsStep(m: map<nat, nat>, v: nat, n: nat)
    ensures Targets(m, v, n + 1) == Targets(m, v, n) + (if v + n in m then [Pa(m[v + n])] else [])
  {
  }

  lemma SpanNone(m: map<nat, nat>, v: nat, pa: nat, perm: nat)
    requires perm < 1024
    ensures Span(m, v, 0, pa, perm) == m
  {
  }

  lemma NoneRemoved(m: map<nat, nat>, v: nat)
    ensures m - Range(v, 0) == m
  {
    assert Range(v, 0) == {};
  }

  lemma RangeStep(m: map<nat, nat>, v: nat, n: nat)
    ensures (m - Range(v, n)) - {v + n} == m - Range(v, n + 1)
    ensures v + n !in Range(v, n)
  {
    assert forall u: nat :: InSpan(v, u, n + 1) == (InSpan(v, u, n) || u == v + n);
    assert Range(v, n + 1) == Range(v, n) + {v + n};
  }

  /** A valid flat entry is the word in its leaf slot. */
  lemma LeafWord(root: nat, tables: map<nat, Table>, node: Nodes, v: nat)
    requires Shape(root, tables, node)
    ensures v in Flat(tables, node) ==>
      && (0, v / 512) in node && node[(0, v / 512)] in tables
      && tables[node[(0, v / 512)]][v % 512] == Flat(tables, node)[v]
  {
    hide Linked, Closed;
  }

  lemma PageAt(va: nat, n: nat)
    requires va % PGSIZE == 0
    ensures (va + n * PGSIZE) / PGSIZE == va / PGSIZE + n
  {
  }

  lemma LeafPlaced(root: nat, tables: map<nat, Table>, node: Nodes, v: nat)
    requires Shape(root, tables, node) && (0, v / 512) in node
    ensures node[(0, v / 512)] in tables
  {
  }

  lemma RootNode(root: nat, tables: map<nat, Table>, node: Nodes)
    requires Shape(root, tables, node)
    ensures (2, 0) in node && node[(2, 0)] == root
  {
  }

  lemma LinkAt(root: nat, tables: map<nat, Table>, node: Nodes, n: Node, i: nat)
    requires Shape(root, tables, node) && n in node && n.0 > 0 && i < 512
    ensures node[n] in tables && LinkOk(tables[node[n]][i], Child(n, i), node)
  {
  }
}
