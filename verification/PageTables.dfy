/**
 Page tables of labo2/kernel/vm.c and the page allocator of labo2/kernel/kalloc.c: what
 three levels of tables mean, and who owns each page frame.
 */
module PageTables {
  const ENTRIES: nat := 512

  // Physical memory, frame by frame; every frame is 512 words.
  type Memory = seq<seq<int>>

  // What a frame that is not free is used for.  Page (r, a, b, c) is the memory that the
  // table `r` maps at indices `a`, `b`, `c`; a held frame is one that kalloc returned.
  datatype Use = Root(r: nat) | Mid(r: nat, a: nat) | Low(r: nat, a: nat, b: nat) | Page(r: nat, a: nat, b: nat,
                      c: nat) | Held(f: nat) {
    predicate IsTable() {
      Root? || Mid? || Low?
    }
  }

  // ---------- Entries of a page table (riscv.h:343-352) ----------

  const PTE_V: nat := 1
  const PTE_R: nat := 2
  const PTE_W: nat := 4
  const PTE_X: nat := 8
  const PTE_U: nat := 16

  function MakePte(ppn: nat, flags: nat): (pte: nat) {
    ppn * 1024 + flags
  }

  function Ppn(pte: int): int {
    pte / 1024
  }

  function Flags(pte: int): (f: nat)
    ensures f < 1024
  {
    pte % 1024
  }

  predicate V(pte: int) {
    pte % 2 == 1
  }

  // Some of PTE_R, PTE_W and PTE_X is set.
  predicate Leaf(pte: int) {
    pte / 2 % 8 != 0
  }

  // perm | PTE_V
  function OrV(perm: nat): nat {
    if perm % 2 == 1 then perm else perm + 1
  }

  lemma MakePteIs(ppn: nat, flags: nat)
    requires flags < 1024
    ensures Ppn(MakePte(ppn, flags)) == ppn && Flags(MakePte(ppn, flags)) == flags
    ensures V(MakePte(ppn, flags)) <==> flags % 2 == 1
    ensures Leaf(MakePte(ppn, flags)) <==> flags / 2 % 8 != 0
  {
    FieldsOf(MakePte(ppn, flags), ppn, flags);
  }

  lemma OfTwo(x: int, q: int, r: int)
    requires x == 2 * q + r && 0 <= r < 2
    ensures x / 2 == q && x % 2 == r
  {
  }

  lemma OfEight(x: int, q: int, r: int)
    requires x == 8 * q + r && 0 <= r < 8
    ensures x % 8 == r
  {
  }

  lemma OfThousand(x: int, q: int, r: int)
    requires x == 1024 * q + r && 0 <= r < 1024
    ensures x / 1024 == q && x % 1024 == r
  {
  }

  // The fields of an entry come apart again, and its flags are those of its low bits.
  lemma FieldsOf(pte: int, ppn: int, flags: nat)
    requires pte == ppn * 1024 + flags && flags < 1024
    ensures Ppn(pte) == ppn && Flags(pte) == flags
    ensures V(pte) <==> flags % 2 == 1
    ensures Leaf(pte) <==> flags / 2 % 8 != 0
  {
    OfThousand(pte, ppn, flags);
    var half, low := flags / 2, flags % 2;
    OfTwo(pte, 512 * ppn + half, low);
    OfEight(512 * ppn + half, 64 * ppn + half / 8, half % 8);
  }

  lemma NoPte()
    ensures !V(0)
  {
  }

  // ---------- Who owns which frame ----------

  /**
   Every frame of the allocator is either on the free list, once, or in one use; `at` and
   `use` are inverse to each other.
   */
  ghost predicate Frames(free: seq<nat>, at: map<Use, nat>, use: map<nat, Use>, lo: nat, hi: nat) {
    && (forall f :: f in use <==> lo <= f < hi && f !in free)
    && (forall k :: 0 <= k < |free| ==> lo <= free[k] < hi)
    && (forall j, k :: 0 <= j < k < |free| ==> free[j] != free[k])
    && (forall u :: u in at ==> at[u] in use && use[at[u]] == u)
    && (forall f :: f in use ==> use[f] in at && at[use[f]] == f)
  }

  lemma PopFrame(free: seq<nat>, at: map<Use, nat>, use: map<nat, Use>, lo: nat, hi: nat)
    requires Frames(free, at, use, lo, hi) && free != [] && Held(free[0]) !in at
    ensures free[0] !in use && lo <= free[0] < hi
    ensures Frames(free[1..], at[Held(free[0]) := free[0]], use[free[0] := Held(free[0])], lo, hi)
  {
    var f := free[0];
    forall g ensures g in free <==> g == f || g in free[1..] {
      if g in free && g != f {
        var k :| 0 <= k < |free| && free[k] == g;
        assert free[1..][k - 1] == g;
      }
    }
  }

  lemma PushFrame(free: seq<nat>, at: map<Use, nat>, use: map<nat, Use>, lo: nat, hi: nat, u: Use)
    requires Frames(free, at, use, lo, hi) && u in at
    ensures Frames([at[u]] + free, at - {u}, use - {at[u]}, lo, hi)
  {
  }

  // The frame of `u` is now used as `w`.
  function Renamed(at: map<Use, nat>, u: Use, w: Use): map<Use, nat>
    requires u in at
  {
    (at - {u})[w := at[u]]
  }

  lemma RenameFrame(free: seq<nat>, at: map<Use, nat>, use: map<nat, Use>, lo: nat, hi: nat, u: Use, w: Use)
    requires Frames(free, at, use, lo, hi) && u in at && w !in at
    ensures Frames(free, Renamed(at, u, w), use[at[u] := w], lo, hi)
  {
  }

  // Different uses have different frames.
  ghost predicate Apart(at: map<Use, nat>) {
    forall u, w :: u in at && w in at && u != w ==> at[u] != at[w]
  }

  lemma FramesAllApart(free: seq<nat>, at: map<Use, nat>, use: map<nat, Use>, lo: nat, hi: nat)
    requires Frames(free, at, use, lo, hi)
    ensures Apart(at)
    ensures forall u :: u in at ==> lo <= at[u] < hi && at[u] !in free
  {
  }

  // ---------- The tree ----------

  function Child(u: Use, i: nat): Use
    requires u.Root? || u.Mid?
  {
    if u.Root? then Mid(u.r, i) else Low(u.r, u.a, i)
  }

  // Entry `i` of a table above the last level points to the table below, or to nothing.
  ghost predicate EntryOk(m: Memory, at: map<Use, nat>, u: Use, i: nat)
    requires (u.Root? || u.Mid?) && u in at && at[u] < |m| && i < |m[at[u]]|
  {
    var pte := m[at[u]][i];
    && (V(pte) <==> Child(u, i) in at)
    && (Child(u, i) in at ==> pte == MakePte(at[Child(u, i)], PTE_V))
  }

  ghost predicate Shape(m: Memory, at: map<Use, nat>) {
    && (forall f :: 0 <= f < |m| ==> |m[f]| == ENTRIES)
    && (forall u :: u in at ==> at[u] < |m|)
    && (forall u :: u in at && u.Root? ==> at[u] == u.r)
    && (forall u :: u in at && u.Held? ==> at[u] == u.f)
  }

  ghost predicate Above(at: map<Use, nat>) {
    && (forall r: nat, a: nat :: Mid(r, a) in at ==> Root(r) in at && a < ENTRIES)
    && (forall r: nat, a: nat, b: nat :: Low(r, a, b) in at ==> Mid(r, a) in at && b < ENTRIES)
  }

  ghost predicate UpperOk(m: Memory, at: map<Use, nat>)
    requires Shape(m, at)
  {
    forall u, i :: u in at && (u.Root? || u.Mid?) && 0 <= i < ENTRIES ==> EntryOk(m, at, u, i)
  }

  // A valid entry of the last level maps a frame.
  ghost predicate LowerOk(m: Memory, at: map<Use, nat>)
    requires Shape(m, at)
  {
    forall u, i :: u in at && u.Low? && 0 <= i < ENTRIES && V(m[at[u]][i]) ==>
      Leaf(m[at[u]][i]) && 0 <= Ppn(m[at[u]][i]) < |m|
  }

  // Pages of memory are mapped where they say.
  ghost predicate PagesOk(m: Memory, at: map<Use, nat>)
    requires Shape(m, at)
  {
    forall r: nat, a: nat, b: nat, c: nat :: Page(r, a, b, c) in at ==>
      && Low(r, a, b) in at && c < ENTRIES
      && V(m[at[Low(r, a, b)]][c]) && Ppn(m[at[Low(r, a, b)]][c]) == at[Page(r, a, b, c)]
  }

  ghost predicate Tree(m: Memory, at: map<Use, nat>) {
    Shape(m, at) && Apart(at) && Above(at) && UpperOk(m, at) && LowerOk(m, at) && PagesOk(m, at)
  }

  // ---------- The partial map that a tree stands for ----------

  const MAXVPN: nat := 0x400_0000     // MAXVA / PGSIZE

  // PX(2, va), PX(1, va) and PX(0, va), of the page number of va.
  function A(v: nat): nat {
    v / 0x4_0000
  }

  function B(v: nat): (b: nat)
    ensures b < ENTRIES
  {
    v / 512 % 512
  }

  function C(v: nat): (c: nat)
    ensures c < ENTRIES
  {
    v % 512
  }

  lemma IndicesOf(v: nat)
    requires v < MAXVPN
    ensures A(v) < ENTRIES / 2
  {
  }

  lemma SameIndices(v: nat, w: nat)
    requires A(v) == A(w) && B(v) == B(w) && C(v) == C(w)
    ensures v == w
  {
    VpnOf(0, v);
    VpnOf(0, w);
    hide A, B, C;
  }

  function LowOf(r: nat, v: nat): Use {
    Low(r, A(v), B(v))
  }

  function PageOf(r: nat, v: nat): Use {
    Page(r, A(v), B(v), C(v))
  }

  // The entry that maps page `v` in table `r`; 0 where there is none.
  function Pte(m: Memory, at: map<Use, nat>, r: nat, v: nat): int {
    var u := LowOf(r, v);
    if u in at && at[u] < |m| && C(v) < |m[at[u]]| && V(m[at[u]][C(v)]) then m[at[u]][C(v)] else 0
  }

  // Every table maps as before.
  ghost predicate SameMaps(m: Memory, at: map<Use, nat>, n: Memory, bt: map<Use, nat>) {
    forall r: nat, v: nat :: Pte(n, bt, r, v) == Pte(m, at, r, v)
  }

  // Every table maps as before, but for the pages `lo` to `hi` of `r`.
  ghost predicate SameMapsBut(m: Memory, at: map<Use, nat>, n: Memory, bt: map<Use, nat>, r: nat, lo: nat, hi: nat) {
    forall q: nat, v: nat :: !(q == r && lo <= v < hi) ==> Pte(n, bt, q, v) == Pte(m, at, q, v)
  }

  // Pages and held frames keep their contents.
  ghost predicate SameData(m: Memory, at: map<Use, nat>, n: Memory) {
    |n| == |m| && forall u :: u in at && !u.IsTable() && at[u] < |m| ==> n[at[u]] == m[at[u]]
  }

  // Tables below `r` are all that is new.
  ghost predicate TablesGrown(at: map<Use, nat>, bt: map<Use, nat>, r: nat) {
    && (forall u :: u in at ==> u in bt && bt[u] == at[u])
    && (forall u :: u in bt && u !in at ==> (u.Mid? || u.Low?) && u.r == r)
  }

  // Empty tables are all that is new.
  ghost predicate Grown(m: Memory, at: map<Use, nat>, n: Memory, bt: map<Use, nat>, r: nat) {
    TablesGrown(at, bt, r) && SameMaps(m, at, n, bt) && SameData(m, at, n)
  }

  lemma GrownSelf(m: Memory, at: map<Use, nat>, r: nat)
    ensures Grown(m, at, m, at, r)
  {
  }

  lemma GrownTwice(m: Memory, at: map<Use, nat>, n: Memory, bt: map<Use, nat>, o: Memory, ct: map<Use, nat>, r: nat)
    requires Grown(m, at, n, bt, r) && Grown(n, bt, o, ct, r)
    ensures Grown(m, at, o, ct, r)
  {
    hide Pte;
  }

  function Filled(x: int): (p: seq<int>)
    ensures |p| == ENTRIES && forall i :: 0 <= i < ENTRIES ==> p[i] == x
  {
    seq(ENTRIES, i => x)
  }

  // The same tables with the same entries.
  ghost predicate SameTables(m: Memory, at: map<Use, nat>, n: Memory, bt: map<Use, nat>) {
    && |n| == |m|
    && forall u: Use :: u.IsTable() ==> (u in at <==> u in bt) && (u in at && at[u] < |m| ==> bt[u] == at[u] && n[at[u]] == m[at[u]])
  }

  lemma TablesSame(m: Memory, at: map<Use, nat>, n: Memory, bt: map<Use, nat>)
    requires Tree(m, at) && Shape(n, bt) && SameTables(m, at, n, bt)
    ensures Above(bt) && UpperOk(n, bt) && LowerOk(n, bt) && SameMaps(m, at, n, bt)
  {
    hide V, Leaf, Ppn, MakePte, A, B, C, Apart, PagesOk;
    assert Shape(m, at);
    forall u, i | u in bt && (u.Root? || u.Mid?) && 0 <= i < ENTRIES ensures EntryOk(n, bt, u, i) {
      assert EntryOk(m, at, u, i);
      assert Child(u, i).IsTable();
    }
  }

  // A frame that is no table changes: the tree stays.
  lemma DataChanges(m: Memory, at: map<Use, nat>, f: nat, p: seq<int>)
    requires Tree(m, at) && f < |m| && |p| == ENTRIES
    requires forall u :: u in at && at[u] == f ==> !u.IsTable()
    ensures Tree(m[f := p], at) && SameMaps(m, at, m[f := p], at)
  {
    hide V, Leaf, Ppn, MakePte, UpperOk, LowerOk, Above, Apart;
    var n := m[f := p];
    assert Shape(n, at) && SameTables(m, at, n, at);
    TablesSame(m, at, n, at);
  }

  // A frame joins, or leaves, those that are no tables.
  lemma HeldJoins(m: Memory, at: map<Use, nat>, f: nat)
    requires Tree(m, at) && f < |m| && Held(f) !in at && forall u :: u in at ==> at[u] != f
    ensures Tree(m, at[Held(f) := f]) && SameMaps(m, at, m, at[Held(f) := f])
  {
    var bt := at[Held(f) := f];
    HeldApart(at, f);
    hide V, Leaf, Ppn, MakePte, UpperOk, LowerOk, Above, Apart;
    assert Shape(m, bt) && SameTables(m, at, m, bt);
    TablesSame(m, at, m, bt);
  }

  lemma HeldApart(at: map<Use, nat>, f: nat)
    requires Apart(at) && Held(f) !in at && forall u :: u in at ==> at[u] != f
    ensures Apart(at[Held(f) := f])
  {
  }

  lemma DataLeaves(m: Memory, at: map<Use, nat>, u: Use)
    requires Tree(m, at) && u in at && !u.IsTable()
    ensures Tree(m, at - {u}) && SameMaps(m, at, m, at - {u})
  {
    var bt := at - {u};
    assert Apart(bt);
    hide V, Leaf, Ppn, MakePte, UpperOk, LowerOk, Above, Apart;
    assert Shape(m, bt) && SameTables(m, at, m, bt);
    TablesSame(m, at, m, bt);
  }

  // ---------- walk ----------

  function WithTable(m: Memory, g: nat, i: nat, f: nat): (n: Memory)
    requires f < |m| && g < |m| && i < |m[g]|
    ensures |n| == |m|
  {
    var page: seq<int> := m[g][i := MakePte(f, PTE_V)];
    m[f := Filled(0)][g := page]
  }

  // A fresh frame, zeroed, becomes the table that entry `i` of `u` points to.
  lemma TableAdded(m: Memory, at: map<Use, nat>, u: Use, i: nat, f: nat)
    requires Tree(m, at) && u in at && (u.Root? || u.Mid?) && i < ENTRIES && at[u] < |m| && !V(m[at[u]][i])
    requires f < |m| && forall w :: w in at ==> at[w] != f
    ensures Child(u, i) !in at
    ensures var n := WithTable(m, at[u], i, f);
            Tree(n, at[Child(u, i) := f]) && Grown(m, at, n, at[Child(u, i) := f], u.r)
  {
    hide V, Leaf, Ppn, MakePte, A, B, C, Filled;
    var n := WithTable(m, at[u], i, f);
    var bt := at[Child(u, i) := f];
    assert EntryOk(m, at, u, i);
    TableAddedContents(m, at, u, i, f);
    assert Apart(bt);
    hide Apart;
    TableAddedUpper(m, at, u, i, f);
    TableAddedLower(m, at, u, i, f);
    TableAddedMaps(m, at, u, i, f);
  }

  // The state after TableAdded, frame by frame.
  ghost predicate TableIsAdded(m: Memory, at: map<Use, nat>, n: Memory, bt: map<Use, nat>, u: Use, i: nat, f: nat) {
    && (u.Root? || u.Mid?) && i < ENTRIES && u in at && at[u] < |m| == |n| && f < |m| && i < |m[at[u]]|
    && Child(u, i) !in at && bt == at[Child(u, i) := f] && !V(m[at[u]][i])
    && n[f] == Filled(0) && n[at[u]] == m[at[u]][i := MakePte(f, PTE_V)]
    && (forall w :: w in at && w != u && at[w] < |m| ==> n[at[w]] == m[at[w]])
    && forall g :: 0 <= g < |n| ==> |n[g]| == ENTRIES
  }

  lemma TableAddedContents(m: Memory, at: map<Use, nat>, u: Use, i: nat, f: nat)
    requires Shape(m, at) && Apart(at) && u in at && (u.Root? || u.Mid?) && i < ENTRIES && !V(m[at[u]][i])
    requires Child(u, i) !in at
    requires f < |m| && forall w :: w in at ==> at[w] != f
    ensures TableIsAdded(m, at, WithTable(m, at[u], i, f), at[Child(u, i) := f], u, i, f)
    ensures Shape(WithTable(m, at[u], i, f), at[Child(u, i) := f])
  {
    hide V, MakePte;
  }

  lemma TableAddedUpper(m: Memory, at: map<Use, nat>, u: Use, i: nat, f: nat)
    requires Shape(m, at) && UpperOk(m, at) && Above(at) && u in at && (u.Root? || u.Mid?) && i < ENTRIES && f < |m|
    requires TableIsAdded(m, at, WithTable(m, at[u], i, f), at[Child(u, i) := f], u, i, f)
    requires Shape(WithTable(m, at[u], i, f), at[Child(u, i) := f])
    ensures UpperOk(WithTable(m, at[u], i, f), at[Child(u, i) := f]) && Above(at[Child(u, i) := f])
  {
    hide V, Leaf, Ppn, MakePte, WithTable, EntryOk;
    var n, bt := WithTable(m, at[u], i, f), at[Child(u, i) := f];
    forall x, j | x in bt && (x.Root? || x.Mid?) && 0 <= j < ENTRIES ensures EntryOk(n, bt, x, j) {
      assert x in at ==> EntryOk(m, at, x, j);
      TableAddedEntry(m, at, n, bt, u, i, f, x, j);
    }
  }

  lemma TableAddedEntry(m: Memory, at: map<Use, nat>, n: Memory, bt: map<Use, nat>, u: Use, i: nat, f: nat, x: Use,
                        j: nat)
    requires TableIsAdded(m, at, n, bt, u, i, f) && x in bt && (x.Root? || x.Mid?) && j < ENTRIES && Above(at)
    requires x in at ==> at[x] < |m| && |m[at[x]]| == ENTRIES && EntryOk(m, at, x, j)
    ensures EntryOk(n, bt, x, j)
  {
    MakePteIs(f, PTE_V);
    NoPte();
    hide V, Leaf, Ppn, MakePte;
    if x in at {
      assert Child(x, j) == Child(u, i) ==> x == u && j == i;
    } else {
      assert Child(x, j) !in bt;
    }
  }

  lemma TableAddedLower(m: Memory, at: map<Use, nat>, u: Use, i: nat, f: nat)
    requires Shape(m, at) && LowerOk(m, at) && PagesOk(m, at) && u in at && (u.Root? || u.Mid?) && i < ENTRIES
    requires f < |m|
    requires TableIsAdded(m, at, WithTable(m, at[u], i, f), at[Child(u, i) := f], u, i, f)
    requires Shape(WithTable(m, at[u], i, f), at[Child(u, i) := f])
    ensures LowerOk(WithTable(m, at[u], i, f), at[Child(u, i) := f])
    ensures PagesOk(WithTable(m, at[u], i, f), at[Child(u, i) := f])
  {
    NoPte();
    hide V, Leaf, Ppn, MakePte, WithTable;
  }

  lemma TableAddedMaps(m: Memory, at: map<Use, nat>, u: Use, i: nat, f: nat)
    requires Shape(m, at) && u in at && (u.Root? || u.Mid?) && i < ENTRIES && f < |m|
    requires TableIsAdded(m, at, WithTable(m, at[u], i, f), at[Child(u, i) := f], u, i, f)
    requires Shape(WithTable(m, at[u], i, f), at[Child(u, i) := f])
    ensures Grown(m, at, WithTable(m, at[u], i, f), at[Child(u, i) := f], u.r)
  {
    hide V, Leaf, Ppn, MakePte, WithTable, A, B, C;
  }

  // ---------- Entries of the last level ----------

  // What mappages and uvmunmap store.
  predicate Storable(m: Memory, pte: int) {
    pte == 0 || (V(pte) && Leaf(pte) && 0 <= Ppn(pte) < |m|)
  }

  function WithPte(m: Memory, at: map<Use, nat>, r: nat, v: nat, pte: int): (n: Memory)
    requires LowOf(r, v) in at && at[LowOf(r, v)] < |m| && C(v) < |m[at[LowOf(r, v)]]|
    ensures |n| == |m|
  {
    var f := at[LowOf(r, v)];
    var page: seq<int> := m[f][C(v) := pte];
    m[f := page]
  }

  lemma LeafSet(m: Memory, at: map<Use, nat>, r: nat, v: nat, pte: int)
    requires Tree(m, at) && LowOf(r, v) in at && PageOf(r, v) !in at && Storable(m, pte)
    ensures at[LowOf(r, v)] < |m| && C(v) < |m[at[LowOf(r, v)]]|
    ensures var n := WithPte(m, at, r, v, pte);
            Tree(n, at) && Pte(n, at, r, v) == pte && SameMapsBut(m, at, n, at, r, v, v + 1) && SameData(m, at, n)
  {
    hide V, Leaf, Ppn, MakePte, A, B, C;
    assert Shape(m, at);
    var n := WithPte(m, at, r, v, pte);
    assert forall x :: x in at && x != LowOf(r, v) ==> n[at[x]] == m[at[x]];
    assert Shape(n, at);
    forall u, i | u in at && (u.Root? || u.Mid?) && 0 <= i < ENTRIES ensures EntryOk(n, at, u, i) {
      assert EntryOk(m, at, u, i);
    }
    assert V(pte) ==> Leaf(pte) && 0 <= Ppn(pte) < |m| by {
      NoPte();
    }
    assert LowerOk(n, at) && PagesOk(n, at);
    LeafSetMaps(m, at, r, v, pte);
  }

  lemma LeafSetMaps(m: Memory, at: map<Use, nat>, r: nat, v: nat, pte: int)
    requires Shape(m, at) && Apart(at) && LowOf(r, v) in at && at[LowOf(r, v)] < |m| && C(v) < |m[at[LowOf(r, v)]]|
    requires pte == 0 || V(pte)
    ensures Pte(WithPte(m, at, r, v, pte), at, r, v) == pte
    ensures SameMapsBut(m, at, WithPte(m, at, r, v, pte), at, r, v, v + 1)
  {
    hide A, B, C, V;
    var n := WithPte(m, at, r, v, pte);
    forall q: nat, w: nat | !(q == r && v <= w < v + 1) ensures Pte(n, at, q, w) == Pte(m, at, q, w) {
      if LowOf(q, w) in at && at[LowOf(q, w)] == at[LowOf(r, v)] {
        assert LowOf(q, w) == LowOf(r, v);
        if C(w) == C(v) {
          SameIndices(v, w);
        }
      }
    }
  }

  // The frame that an entry maps becomes a page that the table owns.
  lemma PageJoins(m: Memory, at: map<Use, nat>, r: nat, v: nat)
    requires Tree(m, at) && LowOf(r, v) in at && PageOf(r, v) !in at
    requires V(Pte(m, at, r, v)) && 0 <= Ppn(Pte(m, at, r, v)) < |m|
    requires forall u :: u in at ==> at[u] != Ppn(Pte(m, at, r, v))
    ensures var bt := at[PageOf(r, v) := Ppn(Pte(m, at, r, v))]; Tree(m, bt) && SameMaps(m, at, m, bt)
  {
    NoPte();
    hide V, Leaf, Ppn, MakePte, A, B, C;
    var bt := at[PageOf(r, v) := Ppn(Pte(m, at, r, v))];
    assert Apart(bt);
    hide UpperOk, LowerOk, Above, Apart;
    assert Shape(m, bt) && SameTables(m, at, m, bt);
    TablesSame(m, at, m, bt);
  }

  // What a mapped page number says about the tree.
  lemma PteMeans(m: Memory, at: map<Use, nat>, r: nat, v: nat)
    requires Tree(m, at)
    ensures V(Pte(m, at, r, v)) ==> LowOf(r, v) in at && Storable(m, Pte(m, at, r, v))
    ensures PageOf(r, v) in at ==> V(Pte(m, at, r, v)) && Ppn(Pte(m, at, r, v)) == at[PageOf(r, v)]
    ensures Pte(m, at, r, v) == 0 || V(Pte(m, at, r, v))
    ensures LowOf(r, v) in at ==>
      && at[LowOf(r, v)] < |m| && C(v) < |m[at[LowOf(r, v)]]|
      && (V(m[at[LowOf(r, v)]][C(v)]) ==> m[at[LowOf(r, v)]][C(v)] == Pte(m, at, r, v))
      && (!V(m[at[LowOf(r, v)]][C(v)]) ==> Pte(m, at, r, v) == 0)
  {
    NoPte();
    hide V, Leaf, Ppn, MakePte, A, B, C;
  }

  // ---------- Ranges of pages ----------

  function Vpn(u: Use): nat
    requires u.Page?
  {
    u.a * 0x4_0000 + u.b * 512 + u.c
  }

  lemma VpnOf(r: nat, v: nat)
    ensures Vpn(PageOf(r, v)) == v
  {
  }

  predicate PageIn(u: Use, r: nat, lo: nat, hi: nat) {
    u.Page? && u.r == r && lo <= Vpn(u) < hi
  }

  // A page in a tree is that of its page number.
  lemma PageIs(m: Memory, at: map<Use, nat>, u: Use)
    requires Tree(m, at) && u in at && u.Page?
    ensures u == PageOf(u.r, Vpn(u))
  {
    assert u == Page(u.r, u.a, u.b, u.c);
    assert u.b < ENTRIES && u.c < ENTRIES;
    hide Tree;
    VpnIndices(u.a, u.b, u.c);
  }

  lemma VpnIndices(a: nat, b: nat, c: nat)
    requires b < ENTRIES && c < ENTRIES
    ensures A(a * 0x4_0000 + b * 512 + c) == a && B(a * 0x4_0000 + b * 512 + c) == b
    ensures C(a * 0x4_0000 + b * 512 + c) == c
  {
    var v := a * 0x4_0000 + b * 512 + c;
    assert v == (a * 512 + b) * 512 + c;
    assert v / 512 == a * 512 + b;
  }

  // The pages `lo` to `hi` of table `r` are gone, and no other use is.
  ghost predicate PagesRemoved(at: map<Use, nat>, bt: map<Use, nat>, r: nat, lo: nat, hi: nat) {
    && (forall u :: u in bt <==> u in at && !PageIn(u, r, lo, hi))
    && (forall u :: u in bt ==> bt[u] == at[u])
  }

  lemma OnePageRemoved(m: Memory, at: map<Use, nat>, bt: map<Use, nat>, r: nat, lo: nat, v: nat)
    requires PagesRemoved(at, bt, r, lo, v) && lo <= v && Tree(m, bt) && PageOf(r, v) in bt
    ensures PagesRemoved(at, bt - {PageOf(r, v)}, r, lo, v + 1)
  {
    hide Tree, A, B, C, Vpn;
    VpnOf(r, v);
    forall u | u in bt && PageIn(u, r, v, v + 1) ensures u == PageOf(r, v) {
      PageIs(m, bt, u);
    }
  }

  ghost predicate MapsNothing(m: Memory, at: map<Use, nat>, r: nat) {
    forall v: nat :: Pte(m, at, r, v) == 0
  }

  // A zeroed frame is an empty table of its own.
  lemma RootJoins(m: Memory, at: map<Use, nat>, r: nat)
    requires Tree(m, at) && r < |m| && Root(r) !in at && forall u :: u in at ==> at[u] != r
    ensures Tree(m[r := Filled(0)], at[Root(r) := r])
    ensures SameMaps(m, at, m[r := Filled(0)], at[Root(r) := r])
    ensures MapsNothing(m[r := Filled(0)], at[Root(r) := r], r)
  {
    hide V, Leaf, Ppn, MakePte, A, B, C, Filled;
    var n, bt := m[r := Filled(0)], at[Root(r) := r];
    RootContents(m, at, r);
    hide Apart;
    assert Above(bt);
    RootEntries(m, at, n, bt, r);
    RootMaps(m, at, n, bt, r);
  }

  ghost predicate RootIsAdded(m: Memory, at: map<Use, nat>, n: Memory, bt: map<Use, nat>, r: nat) {
    && r < |m| == |n| && Root(r) !in at && bt == at[Root(r) := r] && n[r] == Filled(0)
    && forall u :: u in at && at[u] < |m| ==> n[at[u]] == m[at[u]]
  }

  lemma RootContents(m: Memory, at: map<Use, nat>, r: nat)
    requires Shape(m, at) && Apart(at) && r < |m| && Root(r) !in at && forall u :: u in at ==> at[u] != r
    ensures var n, bt := m[r := Filled(0)], at[Root(r) := r];
            RootIsAdded(m, at, n, bt, r) && Shape(n, bt) && Apart(bt)
  {
  }

  lemma RootEntries(m: Memory, at: map<Use, nat>, n: Memory, bt: map<Use, nat>, r: nat)
    requires Shape(m, at) && Above(at) && UpperOk(m, at) && LowerOk(m, at) && PagesOk(m, at)
    requires RootIsAdded(m, at, n, bt, r) && Shape(n, bt)
    ensures UpperOk(n, bt) && LowerOk(n, bt) && PagesOk(n, bt)
  {
    NoPte();
    hide V, Leaf, Ppn, MakePte;
    forall u, i | u in bt && (u.Root? || u.Mid?) && 0 <= i < ENTRIES ensures EntryOk(n, bt, u, i) {
      if u in at {
        assert EntryOk(m, at, u, i);
      } else {
        assert Mid(r, i) in at ==> Root(r) in at;
      }
    }
  }

  lemma RootMaps(m: Memory, at: map<Use, nat>, n: Memory, bt: map<Use, nat>, r: nat)
    requires Shape(m, at) && Above(at) && RootIsAdded(m, at, n, bt, r) && Shape(n, bt)
    ensures SameMaps(m, at, n, bt) && MapsNothing(n, bt, r)
  {
    hide V, Leaf, Ppn, MakePte, A, B, C;
    forall v: nat ensures LowOf(r, v) !in bt {
      assert LowOf(r, v) in at ==> Mid(r, A(v)) in at;
    }
  }

  // ---------- freewalk ----------

  // `w` is `u` or a table below it.
  predicate Under(w: Use, u: Use) {
    w == u || match u
              case Root(r) => (w.Mid? || w.Low?) && w.r == r
              case Mid(r, a) => w.Low? && w.r == r && w.a == a
              case _ => false
  }

  // `w` is a table below one of the entries of `u` before `i`.
  predicate BelowBefore(w: Use, u: Use, i: nat) {
    match u
    case Root(r) => (w.Mid? || w.Low?) && w.r == r && w.a < i
    case Mid(r, a) => w.Low? && w.r == r && w.a == a && w.b < i
    case _ => false
  }

  // As a tree, but for the entry that pointed to `u`.
  ghost predicate TreeBut(m: Memory, at: map<Use, nat>, u: Use) {
    && Shape(m, at) && Apart(at) && Above(at) && LowerOk(m, at) && PagesOk(m, at)
    && forall x, i :: x in at && (x.Root? || x.Mid?) && 0 <= i < ENTRIES && Child(x, i) != u ==> EntryOk(m, at, x, i)
  }

  ghost predicate NoLeaves(m: Memory, at: map<Use, nat>, u: Use)
    requires Shape(m, at)
  {
    forall w, i :: w in at && w.Low? && Under(w, u) && 0 <= i < ENTRIES ==> !V(m[at[w]][i])
  }

  // What is left after a frame's use ends, its contents replaced.
  ghost predicate Remains(m: Memory, at: map<Use, nat>, n: Memory, u: Use) {
    |n| == |m| && forall w :: w in at && w != u && at[w] < |m| ==> n[at[w]] == m[at[w]]
  }

  lemma FreedRemains(m: Memory, at: map<Use, nat>, u: Use, p: seq<int>)
    requires Shape(m, at) && Apart(at) && u in at && |p| == ENTRIES
    ensures Remains(m, at, m[at[u] := p], u) && Shape(m[at[u] := p], at - {u}) && Apart(at - {u})
  {
  }

  // A table without children goes.
  lemma TableFreed(m: Memory, at: map<Use, nat>, u: Use, p: seq<int>)
    requires Tree(m, at) && u in at && u.IsTable() && |p| == ENTRIES && NoLeaves(m, at, u)
    requires forall w :: w in at && Under(w, u) ==> w == u
    ensures at[u] < |m| && TreeBut(m[at[u] := p], at - {u}, u)
    ensures u.Root? ==> Tree(m[at[u] := p], at - {u})
  {
    hide V, Leaf, Ppn, MakePte;
    FreedRemains(m, at, u, p);
    var n, bt := m[at[u] := p], at - {u};
    hide Apart;
    assert Above(bt);
    FreedUpper(m, at, n, u);
    FreedLower(m, at, n, u);
  }

  lemma FreedUpper(m: Memory, at: map<Use, nat>, n: Memory, u: Use)
    requires Shape(m, at) && UpperOk(m, at) && u in at && Remains(m, at, n, u) && Shape(n, at - {u})
    ensures forall x, i :: x in at - {u} && (x.Root? || x.Mid?) && 0 <= i < ENTRIES && Child(x, i) != u ==>
      EntryOk(n, at - {u}, x, i)
  {
    hide V, Leaf, Ppn, MakePte;
    forall x, i | x in at - {u} && (x.Root? || x.Mid?) && 0 <= i < ENTRIES
      && Child(x, i) != u ensures EntryOk(n, at - {u}, x, i) {
      assert EntryOk(m, at, x, i);
    }
  }

  lemma FreedLower(m: Memory, at: map<Use, nat>, n: Memory, u: Use)
    requires Shape(m, at) && LowerOk(m, at) && PagesOk(m, at) && u in at && Remains(m, at, n, u) && Shape(n, at - {u})
    requires NoLeaves(m, at, u) && u.IsTable()
    ensures LowerOk(n, at - {u}) && PagesOk(n, at - {u})
  {
    hide V, Leaf, Ppn, MakePte;
    var bt := at - {u};
    assert u.Low? ==> forall c :: 0 <= c < ENTRIES ==> !V(m[at[u]][c]);
    assert PagesOk(n, bt);
  }

  // ... and its parent forgets it.
  lemma EntryCleared(m: Memory, at: map<Use, nat>, u: Use, i: nat)
    requires u in at && (u.Root? || u.Mid?) && i < ENTRIES && Child(u, i) !in at && TreeBut(m, at, Child(u, i))
    ensures at[u] < |m| && |m[at[u]]| == ENTRIES && Tree(m[at[u] := m[at[u]][i := 0]], at)
  {
    NoPte();
    hide V, Leaf, Ppn, MakePte;
    assert Shape(m, at);
    var n := m[at[u] := m[at[u]][i := 0]];
    assert forall w :: w in at && w != u ==> n[at[w]] == m[at[w]];
    hide Apart;
    assert Shape(n, at);
    assert LowerOk(n, at) && PagesOk(n, at);
    forall x, j | x in at && (x.Root? || x.Mid?) && 0 <= j < ENTRIES ensures EntryOk(n, at, x, j) {
      if Child(x, j) != Child(u, i) {
        assert EntryOk(m, at, x, j);
      }
    }
  }
}
