/**
 labo2/kernel/kalloc.c and the functions of labo2/kernel/vm.c that build, change, copy and
 free user page tables.
 */
module Vm {
  import opened PageTables

  const PGSIZE: nat := 4096

  ghost predicate Ready(m: Memory, free: seq<nat>, at: map<Use, nat>, use: map<nat, Use>, lo: nat, hi: nat) {
    0 < lo <= hi <= |m| && Frames(free, at, use, lo, hi) && Tree(m, at)
  }

  lemma ReadyFacts(m: Memory, free: seq<nat>, at: map<Use, nat>, use: map<nat, Use>, lo: nat, hi: nat)
    requires Ready(m, free, at, use, lo, hi)
    ensures 0 < lo <= hi <= |m| && Frames(free, at, use, lo, hi) && Tree(m, at)
    ensures forall u :: u in at ==> lo <= at[u] < hi && at[u] !in free
    ensures forall k :: 0 <= k < |free| ==> lo <= free[k] < hi && Held(free[k]) !in at
    ensures forall f :: 0 <= f < |m| ==> |m[f]| == ENTRIES
    ensures forall u :: u in at && u.Root? ==> at[u] == u.r
  {
    FramesAllApart(free, at, use, lo, hi);
    assert Shape(m, at);
    hide Tree;
    forall k | 0 <= k < |free| ensures Held(free[k]) !in at {
      assert free[k] in free;
    }
  }

  // kalloc took the first free frame.
  lemma Popped(m: Memory, free: seq<nat>, at: map<Use, nat>, use: map<nat, Use>, lo: nat, hi: nat)
    requires Ready(m, free, at, use, lo, hi) && free != []
    ensures var f := free[0];
            && lo <= f < hi && Held(f) !in at
            && var n, bt := m[f := Filled(5)], at[Held(f) := f];
            Ready(n, free[1..], bt, use[f := Held(f)], lo, hi) && SameMaps(m, at, n, bt) && SameData(m, at, n)
  {
    var f := free[0];
    ReadyFacts(m, free, at, use, lo, hi);
    PopFrame(free, at, use, lo, hi);
    assert f in free;
    hide Frames, Tree, Filled, Pte;
    DataChanges(m, at, f, Filled(5));
    HeldJoins(m[f := Filled(5)], at, f);
  }

  // kfree of a page or a held frame.
  lemma Pushed(m: Memory, free: seq<nat>, at: map<Use, nat>, use: map<nat, Use>, lo: nat, hi: nat, u: Use)
    requires Ready(m, free, at, use, lo, hi) && u in at && !u.IsTable()
    ensures at[u] < |m|
    ensures var n, bt := m[at[u] := Filled(1)], at - {u};
            Ready(n, [at[u]] + free, bt, use - {at[u]}, lo, hi) && SameMaps(m, at, n, bt) && SameData(m, bt, n)
  {
    ReadyFacts(m, free, at, use, lo, hi);
    PushFrame(free, at, use, lo, hi, u);
    FramesAllApart(free, at, use, lo, hi);
    hide Frames, Tree, Filled, Pte;
    DataLeaves(m, at, u);
    DataChanges(m, at - {u}, at[u], Filled(1));
  }

  // ---------- kinit ----------

  function Zeroed(n: nat): (m: Memory)
    ensures |m| == n && forall f :: 0 <= f < n ==> |m[f]| == ENTRIES
  {
    seq(n, f => Filled(0))
  }

  ghost function AllHeld(lo: nat, hi: nat): (at: map<Use, nat>)
    ensures forall u :: u in at <==> u.Held? && lo <= u.f < hi
    ensures forall u :: u in at ==> at[u] == u.f
  {
    map f: nat | lo <= f < hi :: Held(f) := f
  }

  ghost function HeldUses(lo: nat, hi: nat): (use: map<nat, Use>)
    ensures forall f :: f in use <==> lo <= f < hi
    ensures forall f :: f in use ==> use[f] == Held(f)
  {
    map f: nat | lo <= f < hi :: Held(f)
  }

  lemma AllHeldFrames(lo: nat, hi: nat)
    ensures Frames([], AllHeld(lo, hi), HeldUses(lo, hi), lo, hi)
  {
    hide AllHeld, HeldUses;
  }

  lemma HeldLess(lo: nat, hi: nat)
    requires lo < hi
    ensures Held(lo) in AllHeld(lo, hi) && AllHeld(lo, hi)[Held(lo)] == lo
    ensures AllHeld(lo, hi) - {Held(lo)} == AllHeld(lo + 1, hi)
  {
    hide AllHeld;
  }

  // p + PGSIZE, for the page number `p`.
  function PastPage(p: nat): nat {
    (p + 1) * PGSIZE
  }

  lemma PageBefore(p: nat, phystop: nat)
    ensures PastPage(p) <= phystop <==> p < First(phystop)
  {
  }

  lemma NoneHeld(m: Memory, free: seq<nat>, at: map<Use, nat>, use: map<nat, Use>, lo: nat, hi: nat)
    requires Frames(free, at, use, lo, hi) && at == AllHeld(hi, hi) && 0 < lo <= hi <= |m|
    requires forall f :: 0 <= f < |m| ==> |m[f]| == ENTRIES
    ensures at == map[] && Ready(m, free, at, use, lo, hi) && forall f :: lo <= f < hi ==> f in free
  {
    hide AllHeld, V, Leaf, Ppn;
    assert at == map[];
    forall f | lo <= f < hi ensures f in free {
      assert f !in use;
    }
  }

  // ---------- walk ----------

  // What an entry above the last level says.
  lemma EntryMeans(m: Memory, free: seq<nat>, at: map<Use, nat>, use: map<nat, Use>, lo: nat, hi: nat, u: Use, i: nat)
    requires Ready(m, free, at, use, lo, hi) && u in at && (u.Root? || u.Mid?) && i < ENTRIES
    ensures at[u] < |m| && |m[at[u]]| == ENTRIES
    ensures V(m[at[u]][i]) <==> Child(u, i) in at
    ensures V(m[at[u]][i]) ==> Ppn(m[at[u]][i]) == at[Child(u, i)] > 0
    ensures V(m[at[u]][i]) ==> !Leaf(m[at[u]][i])
  {
    ReadyFacts(m, free, at, use, lo, hi);
    assert EntryOk(m, at, u, i);
    hide V, Leaf, MakePte, Ppn, Ready, Frames;
    if Child(u, i) in at {
      MakePteIs(at[Child(u, i)], PTE_V);
    }
  }

  // A page from kalloc, zeroed, is linked in as a table.
  lemma TableLinked(m: Memory, free: seq<nat>, at: map<Use, nat>, use: map<nat, Use>, lo: nat, hi: nat, u: Use, i: nat)
    requires Ready(m, free, at, use, lo, hi) && free != [] && u in at && (u.Root? || u.Mid?) && i < ENTRIES
    requires at[u] < |m| && i < |m[at[u]]| && !V(m[at[u]][i])
    ensures var f, w := free[0], Child(u, i);
            && f < |m| && f != at[u]
            && var n := WithTable(m, at[u], i, f);
            && m[f := Filled(5)][f := Filled(0)][at[u] := m[at[u]][i := MakePte(f, PTE_V)]] == n
            && Renamed(at[Held(f) := f], Held(f), w) == at[w := f]
            && Ready(n, free[1..], at[w := f], use[f := Held(f)][f := w], lo, hi)
            && Grown(m, at, n, at[w := f], u.r)
  {
    var f, w := free[0], Child(u, i);
    ReadyFacts(m, free, at, use, lo, hi);
    assert f in free;
    PopFrame(free, at, use, lo, hi);
    hide Tree, Frames, Grown, Filled, V, MakePte, Child, Shape, Ready, Renamed, WithTable;
    TableAdded(m, at, u, i, f);
    TableStored(m, at[u], i, f);
    HeldThen(at, f, w);
    RenameFrame(free[1..], at[Held(f) := f], use[f := Held(f)], lo, hi, Held(f), w);
    ReadyBy(WithTable(m, at[u], i, f), free[1..], at[w := f], use[f := Held(f)][f := w], lo, hi);
  }

  lemma TableStored(m: Memory, g: nat, i: nat, f: nat)
    requires f < |m| && g < |m| && f != g && i < |m[g]|
    ensures m[f := Filled(5)][f := Filled(0)][g := m[g][i := MakePte(f, PTE_V)]] == WithTable(m, g, i, f)
  {
    hide Filled, MakePte;
  }

  lemma HeldThen(at: map<Use, nat>, f: nat, w: Use)
    requires Held(f) !in at
    ensures Renamed(at[Held(f) := f], Held(f), w) == at[w := f]
  {
  }

  lemma ReadyBy(m: Memory, free: seq<nat>, at: map<Use, nat>, use: map<nat, Use>, lo: nat, hi: nat)
    requires 0 < lo <= hi <= |m| && Frames(free, at, use, lo, hi) && Tree(m, at)
    ensures Ready(m, free, at, use, lo, hi)
  {
  }

  // Ready does not depend on what the pages of a tree hold.
  lemma ReadyAgain(m: Memory, free: seq<nat>, at: map<Use, nat>, use: map<nat, Use>, lo: nat, hi: nat, n: Memory)
    requires Ready(m, free, at, use, lo, hi) && |n| == |m| && Tree(n, at)
    ensures Ready(n, free, at, use, lo, hi)
  {
  }

  // ---------- mappages ----------

  // Pages `v0` to `v1` of `r` map the frames from `p` on, and that is all that is new.
  ghost predicate Mapped(m: Memory, at: map<Use, nat>, n: Memory, bt: map<Use, nat>, r: nat, v0: nat, v1: nat, p: nat,
                         perm: nat)
  {
    && (forall v :: v0 <= v < v1 ==> Pte(n, bt, r, v) == MakePte(p + (v - v0), OrV(perm)))
    && SameMapsBut(m, at, n, bt, r, v0, v1) && TablesGrown(at, bt, r) && SameData(m, at, n)
  }

  lemma MappedNone(m: Memory, at: map<Use, nat>, r: nat, v0: nat, p: nat, perm: nat)
    ensures Mapped(m, at, m, at, r, v0, v0, p, perm)
  {
    hide Pte;
  }

  lemma MappedGrows(m: Memory, at: map<Use, nat>, n: Memory, bt: map<Use, nat>, o: Memory, ct: map<Use, nat>, r: nat,
                    v0: nat, v1: nat, p: nat, perm: nat)
    requires Mapped(m, at, n, bt, r, v0, v1, p, perm) && Grown(n, bt, o, ct, r)
    ensures Mapped(m, at, o, ct, r, v0, v1, p, perm)
  {
    hide Pte, MakePte, OrV;
  }

  lemma MappedNext(m: Memory, at: map<Use, nat>, n: Memory, bt: map<Use, nat>, o: Memory, r: nat, v0: nat, v1: nat,
                   p: nat, perm: nat)
    requires Mapped(m, at, n, bt, r, v0, v1, p, perm) && v0 <= v1
    requires Pte(o, bt, r, v1) == MakePte(p + (v1 - v0), OrV(perm))
    requires SameMapsBut(n, bt, o, bt, r, v1, v1 + 1) && SameData(n, bt, o)
    ensures Mapped(m, at, o, bt, r, v0, v1 + 1, p, perm)
  {
    hide Pte, MakePte, OrV;
  }

  lemma MappedShape(m: Memory, at: map<Use, nat>, n: Memory, bt: map<Use, nat>, r: nat, v0: nat, v1: nat, p: nat,
                    perm: nat)
    requires Mapped(m, at, n, bt, r, v0, v1, p, perm)
    ensures |n| == |m| && (Root(r) in at ==> Root(r) in bt)
    ensures Pte(n, bt, r, v1) == Pte(m, at, r, v1)
  {
    hide Pte, MakePte, OrV;
  }

  // The tables above page `v`.
  lemma TreeAbove(m: Memory, free: seq<nat>, at: map<Use, nat>, use: map<nat, Use>, lo: nat, hi: nat, r: nat, v: nat)
    requires Ready(m, free, at, use, lo, hi)
    ensures LowOf(r, v) in at ==> Mid(r, A(v)) in at
  {
    hide A, B, C;
  }

  // One pass of mappages.
  lemma MapOne(m: Memory, free: seq<nat>, at: map<Use, nat>, use: map<nat, Use>, lo: nat, hi: nat, r: nat, v: nat,
               p: nat, perm: nat)
    requires Ready(m, free, at, use, lo, hi) && LowOf(r, v) in at && Pte(m, at, r, v) == 0
    requires p < |m| && perm < 1024 && perm / 2 % 8 != 0
    ensures at[LowOf(r, v)] < |m| && C(v) < |m[at[LowOf(r, v)]]| && !V(m[at[LowOf(r, v)]][C(v)])
    ensures var pte := MakePte(p, OrV(perm));
            var f := at[LowOf(r, v)];
            var n := m[f := m[f][C(v) := pte]];
            && Ready(n, free, at, use, lo, hi) && Pte(n, at, r, v) == pte
            && SameMapsBut(m, at, n, at, r, v, v + 1) && SameData(m, at, n)
  {
    hide A, B, C, V, Leaf, Ppn, MakePte, OrV, Storable;
    PteStorable(m, p, perm);
    PteMeans(m, at, r, v);
    NoPte();
    hide Pte;
    LeafSet(m, at, r, v, MakePte(p, OrV(perm)));
    hide Tree;
    ReadyAgain(m, free, at, use, lo, hi, WithPte(m, at, r, v, MakePte(p, OrV(perm))));
  }

  // What one pass of mappages may store.
  lemma PteStorable(m: Memory, p: nat, perm: nat)
    requires p < |m| && perm < 1024 && perm / 2 % 8 != 0
    ensures Storable(m, MakePte(p, OrV(perm)))
    ensures OrV(perm) < 1024 && V(MakePte(p, OrV(perm))) && Ppn(MakePte(p, OrV(perm))) == p
    ensures Flags(MakePte(p, OrV(perm))) == OrV(perm)
  {
    assert OrV(perm) < 1024 && OrV(perm) / 2 == perm / 2;
    MakePteIs(p, OrV(perm));
    hide MakePte, V, Leaf, Ppn;
  }

  // The pages of the addresses from `va` on, `size` bytes.
  function First(va: nat): nat {
    va / PGSIZE
  }

  function Last(va: nat, size: nat): (v: nat)
    requires size > 0
    ensures First(va) <= v
  {
    (va + size - 1) / PGSIZE
  }

  // ---------- uvmunmap ----------

  // Pages `v0` to `v1` of `r` map nothing, and that is all that is new.
  ghost predicate Unmapped(m: Memory, at: map<Use, nat>, n: Memory, bt: map<Use, nat>, r: nat, v0: nat, v1: nat) {
    && (forall v :: v0 <= v < v1 ==> Pte(n, bt, r, v) == 0)
    && SameMapsBut(m, at, n, bt, r, v0, v1) && SameData(m, bt, n)
  }

  lemma UnmappedNone(m: Memory, at: map<Use, nat>, r: nat, v0: nat)
    ensures Unmapped(m, at, m, at, r, v0, v0) && PagesRemoved(at, at, r, v0, v0)
  {
    hide Pte, Vpn;
  }

  lemma UnmappedNext(m: Memory, at: map<Use, nat>, n: Memory, bt: map<Use, nat>, o: Memory, ct: map<Use, nat>, r: nat,
                     v0: nat, v1: nat)
    requires Unmapped(m, at, n, bt, r, v0, v1) && Unmapped(n, bt, o, ct, r, v1, v1 + 1) && v0 <= v1
    requires forall u :: u in ct ==> u in bt && ct[u] == bt[u]
    ensures Unmapped(m, at, o, ct, r, v0, v1 + 1)
  {
    hide Pte;
  }

  // *pte = 0
  lemma UnmapOne(m: Memory, free: seq<nat>, at: map<Use, nat>, use: map<nat, Use>, lo: nat, hi: nat, r: nat, v: nat)
    requires Ready(m, free, at, use, lo, hi) && LowOf(r, v) in at && PageOf(r, v) !in at
    ensures at[LowOf(r, v)] < |m| && C(v) < |m[at[LowOf(r, v)]]|
    ensures var f := at[LowOf(r, v)];
            var n := m[f := m[f][C(v) := 0]];
            Ready(n, free, at, use, lo, hi) && Unmapped(m, at, n, at, r, v, v + 1)
  {
    hide A, B, C, V, Leaf, Ppn;
    PteMeans(m, at, r, v);
    LeafSet(m, at, r, v, 0);
    hide Tree, Pte;
    ReadyAgain(m, free, at, use, lo, hi, WithPte(m, at, r, v, 0));
  }

  // kfree of the page first.
  lemma UnmapPage(m: Memory, free: seq<nat>, at: map<Use, nat>, use: map<nat, Use>, lo: nat, hi: nat, r: nat, v: nat)
    requires Ready(m, free, at, use, lo, hi) && PageOf(r, v) in at
    ensures LowOf(r, v) in at && at[PageOf(r, v)] < |m| && at[LowOf(r, v)] < |m|
    ensures var g, f := at[PageOf(r, v)], at[LowOf(r, v)];
            var n := m[g := Filled(1)];
            && C(v) < |n[f]|
            && var o := n[f := n[f][C(v) := 0]];
            && Ready(o, [g] + free, at - {PageOf(r, v)}, use - {g}, lo, hi)
            && Unmapped(m, at, o, at - {PageOf(r, v)}, r, v, v + 1)
  {
    hide A, B, C, V, Leaf, Ppn, Filled;
    PteMeans(m, at, r, v);
    NoPte();
    var g := at[PageOf(r, v)];
    hide Tree;
    Pushed(m, free, at, use, lo, hi, PageOf(r, v));
    var n, bt := m[g := Filled(1)], at - {PageOf(r, v)};
    hide Pte;
    UnmapOne(n, [g] + free, bt, use - {g}, lo, hi, r, v);
  }

  lemma MappedMeans(m: Memory, free: seq<nat>, at: map<Use, nat>, use: map<nat, Use>, lo: nat, hi: nat, r: nat, v: nat)
    requires Ready(m, free, at, use, lo, hi)
    ensures PageOf(r, v) in at ==> Pte(m, at, r, v) != 0 && Ppn(Pte(m, at, r, v)) == at[PageOf(r, v)]
    ensures Pte(m, at, r, v) != 0 ==>
      && LowOf(r, v) in at && at[LowOf(r, v)] < |m| && C(v) < |m[at[LowOf(r, v)]]|
      && m[at[LowOf(r, v)]][C(v)] == Pte(m, at, r, v) && V(Pte(m, at, r, v)) && Leaf(Pte(m, at, r, v))
  {
    hide A, B, C, V, Leaf, Ppn;
    PteMeans(m, at, r, v);
    NoPte();
    hide Tree;
  }

  // Pages that are mapped and, if they are to be freed, belong to the table.
  ghost predicate CanUnmap(m: Memory, at: map<Use, nat>, r: nat, v0: nat, v1: nat, doFree: bool) {
    forall v :: v0 <= v < v1 ==> Pte(m, at, r, v) != 0 && (PageOf(r, v) in at <==> doFree)
  }

  lemma CanUnmapLater(m: Memory, at: map<Use, nat>, n: Memory, bt: map<Use, nat>, r: nat, v0: nat, v: nat, v1: nat,
                      doFree: bool)
    requires CanUnmap(m, at, r, v0, v1, doFree) && v0 <= v < v1
    requires Unmapped(m, at, n, bt, r, v0, v)
    requires if doFree then PagesRemoved(at, bt, r, v0, v) else bt == at
    ensures Pte(n, bt, r, v) != 0 && (PageOf(r, v) in bt <==> doFree)
  {
    hide Pte, Vpn;
    VpnOf(r, v);
  }

  // ---------- uvmalloc ----------

  // PGROUNDUP(sz) / PGSIZE
  function Up(sz: nat): nat {
    (sz + PGSIZE - 1) / PGSIZE
  }

  // Tables below `r` and its pages `v0` to `v1` are all that is new.
  ghost predicate PagesAdded(at: map<Use, nat>, bt: map<Use, nat>, r: nat, v0: nat, v1: nat) {
    && (forall u :: u in at ==> u in bt && bt[u] == at[u])
    && (forall u :: u in bt && u !in at ==> ((u.Mid? || u.Low?) && u.r == r) || PageIn(u, r, v0, v1))
  }

  // Pages `v0` to `v1` of `r` are new, each with a frame of its own.
  ghost predicate Added(m: Memory, at: map<Use, nat>, n: Memory, bt: map<Use, nat>, r: nat, v0: nat, v1: nat) {
    && PagesAdded(at, bt, r, v0, v1) && SameMapsBut(m, at, n, bt, r, v0, v1) && SameData(m, at, n)
    && forall v :: v0 <= v < v1 ==> PageOf(r, v) in bt
  }

  // The page belongs to the table, with these permissions and contents.
  ghost predicate HasPage(m: Memory, at: map<Use, nat>, r: nat, v: nat, perm: nat, contents: seq<int>) {
    && PageOf(r, v) in at && at[PageOf(r, v)] < |m|
    && Pte(m, at, r, v) == MakePte(at[PageOf(r, v)], OrV(perm)) && m[at[PageOf(r, v)]] == contents
  }

  lemma AddedNone(m: Memory, at: map<Use, nat>, r: nat, v0: nat)
    ensures Added(m, at, m, at, r, v0, v0)
  {
    hide Pte, Vpn;
  }

  lemma AddedNext(m: Memory, at: map<Use, nat>, n: Memory, bt: map<Use, nat>, o: Memory, ct: map<Use, nat>, r: nat,
                  v0: nat, v1: nat)
    requires Added(m, at, n, bt, r, v0, v1) && Added(n, bt, o, ct, r, v1, v1 + 1) && v0 <= v1
    ensures Added(m, at, o, ct, r, v0, v1 + 1)
  {
    hide Pte, Vpn;
  }

  lemma AddedGrows(m: Memory, at: map<Use, nat>, n: Memory, bt: map<Use, nat>, o: Memory, ct: map<Use, nat>, r: nat,
                   v0: nat, v1: nat)
    requires Added(m, at, n, bt, r, v0, v1) && Grown(n, bt, o, ct, r)
    ensures Added(m, at, o, ct, r, v0, v1)
  {
    hide Pte, Vpn;
  }

  lemma HasPageStays(m: Memory, at: map<Use, nat>, n: Memory, bt: map<Use, nat>, r: nat, v: nat, v1: nat, perm: nat,
                     contents: seq<int>)
    requires HasPage(m, at, r, v, perm, contents) && Added(m, at, n, bt, r, v1, v1 + 1) && v != v1
    ensures HasPage(n, bt, r, v, perm, contents)
  {
    hide Pte, Vpn, MakePte, OrV, A, B, C;
  }

  // No page of the range is there.
  ghost predicate NoPages(at: map<Use, nat>, r: nat, v0: nat, v1: nat) {
    forall u :: u in at ==> !PageIn(u, r, v0, v1)
  }

  lemma NothingMapped(m: Memory, free: seq<nat>, at: map<Use, nat>, use: map<nat, Use>, lo: nat, hi: nat, r: nat,
                      v0: nat, v1: nat)
    requires Ready(m, free, at, use, lo, hi) && forall v :: v0 <= v < v1 ==> Pte(m, at, r, v) == 0
    ensures NoPages(at, r, v0, v1)
  {
    hide Tree, Frames, Pte, Vpn;
    forall u | u in at ensures !PageIn(u, r, v0, v1) {
      if PageIn(u, r, v0, v1) {
        PageIs(m, at, u);
        MappedMeans(m, free, at, use, lo, hi, r, Vpn(u));
      }
    }
  }

  // Adding pages and then removing them leaves the map as it was.
  lemma AddedUndone(m: Memory, at: map<Use, nat>, n: Memory, bt: map<Use, nat>, o: Memory, ct: map<Use, nat>, r: nat,
                    v0: nat, v1: nat)
    requires Added(m, at, n, bt, r, v0, v1) && Unmapped(n, bt, o, ct, r, v0, v1) && PagesRemoved(bt, ct, r, v0, v1)
    requires NoPages(at, r, v0, v1) && forall v :: v0 <= v < v1 ==> Pte(m, at, r, v) == 0
    ensures Grown(m, at, o, ct, r)
  {
    hide Pte, Vpn;
    assert SameMaps(m, at, o, ct);
    assert SameData(m, at, o);
  }

  lemma AddedCanUnmap(m: Memory, at: map<Use, nat>, n: Memory, free: seq<nat>, bt: map<Use, nat>, use: map<nat, Use>,
                      lo: nat, hi: nat, r: nat, v0: nat, v1: nat)
    requires Added(m, at, n, bt, r, v0, v1) && Ready(n, free, bt, use, lo, hi)
    ensures CanUnmap(n, bt, r, v0, v1, true)
  {
    hide Pte, Tree, Frames;
    forall v | v0 <= v < v1 ensures Pte(n, bt, r, v) != 0 && PageOf(r, v) in bt {
      MappedMeans(n, free, bt, use, lo, hi, r, v);
    }
  }

  // uvmalloc succeeded: zeroed pages, and nothing else.
  ghost predicate Allocated(m: Memory, at: map<Use, nat>, n: Memory, bt: map<Use, nat>, r: nat, v0: nat, v1: nat,
                            perm: nat)
  {
    Added(m, at, n, bt, r, v0, v1) && forall v :: v0 <= v < v1 ==> HasPage(n, bt, r, v, perm, Filled(0))
  }

  lemma AllocatedNext(m: Memory, at: map<Use, nat>, n: Memory, bt: map<Use, nat>, o: Memory, ct: map<Use, nat>, r: nat,
                      v0: nat, v1: nat, perm: nat)
    requires Allocated(m, at, n, bt, r, v0, v1, perm) && v0 <= v1
    requires Added(n, bt, o, ct, r, v1, v1 + 1) && HasPage(o, ct, r, v1, perm, Filled(0))
    ensures Allocated(m, at, o, ct, r, v0, v1 + 1, perm)
  {
    hide HasPage, Added;
    AddedNext(m, at, n, bt, o, ct, r, v0, v1);
    forall v | v0 <= v < v1 ensures HasPage(o, ct, r, v, perm, Filled(0)) {
      HasPageStays(n, bt, o, ct, r, v, v1, perm, Filled(0));
    }
  }

  // uvmcopy succeeded: each page of `r` below `v1` has its copy in `q`.
  ghost predicate Copied(m: Memory, at: map<Use, nat>, n: Memory, bt: map<Use, nat>, r: nat, q: nat, v1: nat) {
    && Added(m, at, n, bt, q, 0, v1)
    && forall v :: 0 <= v < v1 ==> IsCopied(m, at, n, bt, r, q, v)
  }

  ghost predicate IsCopied(m: Memory, at: map<Use, nat>, n: Memory, bt: map<Use, nat>, r: nat, q: nat, v: nat) {
    && PageOf(r, v) in at && at[PageOf(r, v)] < |m|
    && HasPage(n, bt, q, v, Flags(Pte(m, at, r, v)), m[at[PageOf(r, v)]])
  }

  lemma CopiedNext(m: Memory, at: map<Use, nat>, n: Memory, bt: map<Use, nat>, o: Memory, ct: map<Use, nat>, r: nat,
                   q: nat, v1: nat)
    requires Copied(m, at, n, bt, r, q, v1) && Added(n, bt, o, ct, q, v1, v1 + 1)
    requires IsCopied(m, at, o, ct, r, q, v1)
    ensures Copied(m, at, o, ct, r, q, v1 + 1)
  {
    hide HasPage, Added, Pte, Flags;
    AddedNext(m, at, n, bt, o, ct, q, 0, v1);
    forall v | 0 <= v < v1 ensures IsCopied(m, at, o, ct, r, q, v) {
      assert IsCopied(m, at, n, bt, r, q, v);
      HasPageStays(n, bt, o, ct, q, v, v1, Flags(Pte(m, at, r, v)), m[at[PageOf(r, v)]]);
    }
  }

  lemma CopiedPage(m: Memory, at: map<Use, nat>, n: Memory, bt: map<Use, nat>, r: nat, q: nat, v: nat)
    requires PageOf(r, v) in at && at[PageOf(r, v)] < |m|
    requires HasPage(n, bt, q, v, Flags(Pte(m, at, r, v)), m[at[PageOf(r, v)]])
    ensures IsCopied(m, at, n, bt, r, q, v)
  {
    hide HasPage;
  }

  // The parent's page is as it was when the copy began.
  lemma SourcePage(m: Memory, at: map<Use, nat>, n: Memory, bt: map<Use, nat>, r: nat, q: nat, v1: nat)
    requires Added(m, at, n, bt, q, 0, v1) && r != q && PageOf(r, v1) in at && at[PageOf(r, v1)] < |m|
    ensures PageOf(r, v1) in bt && bt[PageOf(r, v1)] == at[PageOf(r, v1)] && |n| == |m|
    ensures n[bt[PageOf(r, v1)]] == m[at[PageOf(r, v1)]] && Pte(n, bt, r, v1) == Pte(m, at, r, v1)
  {
    hide Pte, Vpn, A, B, C;
  }

  lemma StillUnmapped(m: Memory, at: map<Use, nat>, n: Memory, bt: map<Use, nat>, r: nat, v0: nat, v1: nat, w: nat)
    requires Added(m, at, n, bt, r, v0, v1) && v1 <= w
    ensures Pte(n, bt, r, w) == Pte(m, at, r, w) && forall u :: u in at ==> u in bt
  {
    hide Pte, Vpn;
  }

  lemma AllocatedNone(m: Memory, at: map<Use, nat>, r: nat, v0: nat, perm: nat)
    ensures Allocated(m, at, m, at, r, v0, v0, perm)
  {
    hide HasPage;
    AddedNone(m, at, r, v0);
  }

  lemma AllocatedAdded(m: Memory, at: map<Use, nat>, n: Memory, bt: map<Use, nat>, r: nat, v0: nat, v1: nat, perm: nat)
    requires Allocated(m, at, n, bt, r, v0, v1, perm)
    ensures Added(m, at, n, bt, r, v0, v1)
  {
    hide HasPage, Added;
  }

  lemma UpOf(a: nat, b: nat)
    requires a <= b
    ensures Up(a) <= Up(b)
  {
  }

  lemma UpOfPages(v: nat)
    ensures Up(v * PGSIZE) == v
  {
  }

  lemma CopiedNone(m: Memory, at: map<Use, nat>, r: nat, q: nat)
    ensures Copied(m, at, m, at, r, q, 0)
  {
    hide HasPage;
    AddedNone(m, at, q, 0);
  }

  lemma CopiedAdded(m: Memory, at: map<Use, nat>, n: Memory, bt: map<Use, nat>, r: nat, q: nat, v: nat)
    requires Copied(m, at, n, bt, r, q, v)
    ensures Added(m, at, n, bt, q, 0, v)
  {
    hide HasPage, Added;
  }

  // What uvmcopy finds at page `v` of the parent.
  lemma ReadyPage(m: Memory, at: map<Use, nat>, n: Memory, free: seq<nat>, bt: map<Use, nat>, use: map<nat, Use>,
                  lo: nat, hi: nat, r: nat, q: nat, v: nat)
    requires Added(m, at, n, bt, q, 0, v) && Ready(n, free, bt, use, lo, hi) && r != q && PageOf(r, v) in at
    ensures at[PageOf(r, v)] < |m| == |n| && LowOf(r, v) in bt && bt[LowOf(r, v)] < |n| && C(v) < |n[bt[LowOf(r, v)]]|
    ensures var pte := n[bt[LowOf(r, v)]][C(v)];
            && pte == Pte(m, at, r, v) && V(pte) && Flags(pte) / 2 % 8 != 0
            && Ppn(pte) == at[PageOf(r, v)] && n[at[PageOf(r, v)]] == m[at[PageOf(r, v)]]
              && |n[at[PageOf(r, v)]]| == ENTRIES
  {
    hide A, B, C, Vpn;
    assert PageOf(r, v) in bt && bt[PageOf(r, v)] == at[PageOf(r, v)] && |n| == |m|;
    ReadyFacts(n, free, bt, use, lo, hi);
    hide Tree, Frames, Pte;
    SourcePage(m, at, n, bt, r, q, v);
    MappedMeans(n, free, bt, use, lo, hi, r, v);
    FlagsLeaf(Pte(n, bt, r, v));
  }

  lemma FlagsLeaf(pte: int)
    ensures Leaf(pte) <==> Flags(pte) / 2 % 8 != 0
  {
    FieldsOf(pte, Ppn(pte), Flags(pte));
  }

  // ---------- uvmcreate ----------

  lemma RootMade(m: Memory, free: seq<nat>, at: map<Use, nat>, use: map<nat, Use>, lo: nat, hi: nat, r: nat)
    requires Ready(m, free, at, use, lo, hi) && free != [] && r == free[0]
    ensures r < |m| && Root(r) !in at
    ensures var n, bt := m[r := Filled(0)], at[Root(r) := r];
            && m[r := Filled(5)][r := Filled(0)] == n && Renamed(at[Held(r) := r], Held(r), Root(r)) == bt
            && Ready(n, free[1..], bt, use[r := Held(r)][r := Root(r)], lo, hi)
            && SameMaps(m, at, n, bt) && MapsNothing(n, bt, r)
  {
    hide Ready, Frames, Tree, SameMaps, MapsNothing, Filled, Renamed;
    ReadyFacts(m, free, at, use, lo, hi);
    assert r in free && Held(r) !in at;
    RootFresh(m, at, r);
    RootFrame(free, at, use, lo, hi, r);
    RootJoins(m, at, r);
    IsReady(m[r := Filled(0)], free[1..], at[Root(r) := r], use[r := Held(r)][r := Root(r)], lo, hi);
  }

  // No table yet has its root at a free frame.
  lemma RootFresh(m: Memory, at: map<Use, nat>, r: nat)
    requires Tree(m, at) && forall u :: u in at ==> at[u] != r
    ensures Root(r) !in at
  {
    assert Shape(m, at);
    hide Tree;
  }

  // A frame taken from the free ones becomes a root.
  lemma RootFrame(free: seq<nat>, at: map<Use, nat>, use: map<nat, Use>, lo: nat, hi: nat, r: nat)
    requires Frames(free, at, use, lo, hi) && free != [] && r == free[0] && Held(r) !in at && Root(r) !in at
    ensures Frames(free[1..], at[Root(r) := r], use[r := Held(r)][r := Root(r)], lo, hi)
    ensures Renamed(at[Held(r) := r], Held(r), Root(r)) == at[Root(r) := r]
  {
    assert Renamed(at[Held(r) := r], Held(r), Root(r)) == at[Root(r) := r];
    hide Frames;
    PopFrame(free, at, use, lo, hi);
    RenameFrame(free[1..], at[Held(r) := r], use[r := Held(r)], lo, hi, Held(r), Root(r));
  }

  lemma IsReady(m: Memory, free: seq<nat>, at: map<Use, nat>, use: map<nat, Use>, lo: nat, hi: nat)
    requires 0 < lo <= hi <= |m| && Frames(free, at, use, lo, hi) && Tree(m, at)
    ensures Ready(m, free, at, use, lo, hi)
  {
    hide Frames, Tree;
  }

  // ---------- freewalk ----------

  ghost predicate LeafLess(m: Memory, at: map<Use, nat>, u: Use) {
    Shape(m, at) && NoLeaves(m, at, u)
  }

  // What is left is as it was.
  ghost predicate KeptContents(m: Memory, at: map<Use, nat>, n: Memory, bt: map<Use, nat>, u: Use) {
    |n| == |m| && forall w :: w in bt && w in at ==> bt[w] == at[w] && (w != u && at[w] < |m| ==> n[at[w]] == m[at[w]])
  }

  // freewalk has freed what the entries of `u` before `i` pointed to.
  ghost predicate Freeing(m: Memory, at: map<Use, nat>, n: Memory, bt: map<Use, nat>, u: Use, i: nat) {
    (forall w :: w in bt <==> w in at && !BelowBefore(w, u, i)) && KeptContents(m, at, n, bt, u)
  }

  // `u` and all tables below it are gone.
  ghost predicate SubtreeFreed(m: Memory, at: map<Use, nat>, n: Memory, bt: map<Use, nat>, u: Use) {
    (forall w :: w in bt <==> w in at && !Under(w, u)) && KeptContents(m, at, n, bt, u)
  }

  lemma FreeingNone(m: Memory, at: map<Use, nat>, u: Use)
    ensures Freeing(m, at, m, at, u, 0)
  {
  }

  lemma EntryKinds(m: Memory, free: seq<nat>, at: map<Use, nat>, use: map<nat, Use>, lo: nat, hi: nat, u: Use, i: nat)
    requires Ready(m, free, at, use, lo, hi) && u in at && u.IsTable() && i < ENTRIES && LeafLess(m, at, u)
    ensures at[u] < |m| && |m[at[u]]| == ENTRIES
    ensures V(m[at[u]][i]) ==>
      && (u.Root? || u.Mid?) && !Leaf(m[at[u]][i])
      && Child(u, i) in at && at[Child(u, i)] == Ppn(m[at[u]][i]) && LeafLess(m, at, Child(u, i))
    ensures !V(m[at[u]][i]) && !u.Low? ==> Child(u, i) !in at
  {
    hide V, Leaf, Ppn, MakePte, Tree, Frames;
    if u.Low? {
      ReadyFacts(m, free, at, use, lo, hi);
      assert Under(u, u);
    } else {
      EntryMeans(m, free, at, use, lo, hi, u, i);
    }
  }

  lemma FreeingSkips(m: Memory, at: map<Use, nat>, n: Memory, bt: map<Use, nat>, u: Use, i: nat)
    requires Freeing(m, at, n, bt, u, i) && Above(bt) && u.IsTable() && (!u.Low? ==> Child(u, i) !in bt)
    ensures Freeing(m, at, n, bt, u, i + 1)
  {
    forall w | w in bt ensures !BelowBefore(w, u, i + 1) {
    }
  }

  lemma AboveOf(m: Memory, free: seq<nat>, at: map<Use, nat>, use: map<nat, Use>, lo: nat, hi: nat)
    requires Ready(m, free, at, use, lo, hi)
    ensures Above(at)
  {
  }

  lemma FreedChild(m: Memory, at: map<Use, nat>, n: Memory, bt: map<Use, nat>, o: Memory, free: seq<nat>,
                   ct: map<Use, nat>, use: map<nat, Use>, lo: nat, hi: nat, u: Use, i: nat)
    requires Freeing(m, at, n, bt, u, i) && u in bt && (u.Root? || u.Mid?) && i < ENTRIES && LeafLess(n, bt, u)
    requires SubtreeFreed(n, bt, o, ct, Child(u, i)) && TreeBut(o, ct, Child(u, i))
    requires 0 < lo <= hi <= |o| && Frames(free, ct, use, lo, hi)
    ensures u in ct && ct[u] == bt[u] < |o| && i < |o[ct[u]]|
    ensures var p := o[ct[u] := o[ct[u]][i := 0]];
            Ready(p, free, ct, use, lo, hi) && Freeing(m, at, p, ct, u, i + 1) && LeafLess(p, ct, u)
  {
    hide V, Leaf, Ppn, MakePte, Frames;
    EntryCleared(o, ct, u, i);
    assert Apart(ct) && Shape(o, ct) && Shape(n, bt);
    var p := o[ct[u] := o[ct[u]][i := 0]];
    assert Shape(p, ct);
    hide Tree, TreeBut;
    assert forall w :: w in ct && w != u ==> p[ct[w]] == o[ct[w]];
    hide Apart, Shape;
    assert forall w :: w in ct ==> w in bt && w in at;
    assert NoLeaves(p, ct, u);
    FreeingOn(m, at, n, bt, o, ct, p, u, i);
  }

  lemma FreeingOn(m: Memory, at: map<Use, nat>, n: Memory, bt: map<Use, nat>, o: Memory, ct: map<Use, nat>, p: Memory,
                  u: Use, i: nat)
    requires Freeing(m, at, n, bt, u, i) && (u.Root? || u.Mid?) && SubtreeFreed(n, bt, o, ct, Child(u, i))
    requires |p| == |o| && forall w :: w in ct && w != u && ct[w] < |o| ==> p[ct[w]] == o[ct[w]]
    ensures Freeing(m, at, p, ct, u, i + 1)
  {
  }

  lemma FreedTable(m: Memory, at: map<Use, nat>, n: Memory, free: seq<nat>, bt: map<Use, nat>, use: map<nat, Use>,
                   lo: nat, hi: nat, u: Use)
    requires Freeing(m, at, n, bt, u, ENTRIES) && Ready(n, free, bt, use, lo, hi) && u in bt && u.IsTable()
    requires LeafLess(n, bt, u)
    ensures Frames(free, bt, use, lo, hi) && 0 < lo <= hi <= |n| && bt[u] < |n|
    ensures var p, ct := n[bt[u] := Filled(1)], bt - {u};
            && TreeBut(p, ct, u) && SubtreeFreed(m, at, p, ct, u)
            && (u.Root? ==> Ready(p, [bt[u]] + free, ct, use - {bt[u]}, lo, hi))
  {
    hide V, Leaf, Ppn, MakePte, Filled;
    ReadyFacts(n, free, bt, use, lo, hi);
    assert Above(bt) && Apart(bt);
    forall w | w in bt && Under(w, u) ensures w == u {
      assert !BelowBefore(w, u, ENTRIES);
    }
    PushFrame(free, bt, use, lo, hi, u);
    hide Frames;
    TableFreed(n, bt, u, Filled(1));
    hide Tree, TreeBut;
    FreedSelf(m, at, n, bt, u);
  }

  lemma FreedSelf(m: Memory, at: map<Use, nat>, n: Memory, bt: map<Use, nat>, u: Use)
    requires Freeing(m, at, n, bt, u, ENTRIES) && u in bt && u.IsTable() && bt[u] < |n| && Apart(bt)
    requires forall w :: w in bt && Under(w, u) ==> w == u
    ensures SubtreeFreed(m, at, n[bt[u] := Filled(1)], bt - {u}, u)
  {
    hide Filled;
    forall w ensures w in bt - {u} <==> w in at && !Under(w, u) {
      assert BelowBefore(w, u, ENTRIES) ==> Under(w, u);
    }
  }

  // ---------- uvmfree ----------

  predicate OfTable(u: Use, r: nat) {
    !u.Held? && u.r == r
  }

  // Table `r` is gone, with its pages; everything else is as it was.
  ghost predicate TableGone(m: Memory, at: map<Use, nat>, n: Memory, bt: map<Use, nat>, r: nat) {
    && (forall u :: u in bt <==> u in at && !OfTable(u, r))
    && (forall u :: u in bt ==> bt[u] == at[u])
    && SameData(m, bt, n)
    && forall q: nat, v: nat :: q != r ==> Pte(n, bt, q, v) == Pte(m, at, q, v)
  }

  lemma OwnedCanUnmap(m: Memory, free: seq<nat>, at: map<Use, nat>, use: map<nat, Use>, lo: nat, hi: nat, r: nat,
                      n: nat)
    requires Ready(m, free, at, use, lo, hi) && forall v :: 0 <= v < n ==> PageOf(r, v) in at
    ensures CanUnmap(m, at, r, 0, n, true)
  {
    hide Tree, Frames, Pte, A, B, C;
    forall v | 0 <= v < n ensures Pte(m, at, r, v) != 0 {
      MappedMeans(m, free, at, use, lo, hi, r, v);
    }
  }

  // Once its pages are unmapped, no table has a leaf.
  lemma NoLeafLeft(m: Memory, at: map<Use, nat>, n: Memory, free: seq<nat>, bt: map<Use, nat>, use: map<nat, Use>,
                   lo: nat, hi: nat, r: nat, k: nat)
    requires Unmapped(m, at, n, bt, r, 0, k) && PagesRemoved(at, bt, r, 0, k) && forall v :: k <= v ==>
      Pte(m, at, r, v) == 0
    requires Ready(n, free, bt, use, lo, hi) && Root(r) in at
    ensures Root(r) in bt && bt[Root(r)] == r && LeafLess(n, bt, Root(r))
    ensures forall u :: u in bt && u.Page? ==> u.r != r
  {
    hide Vpn, A, B, C, V, Leaf, Ppn;
    ReadyFacts(n, free, bt, use, lo, hi);
    assert Shape(n, bt) && Above(bt);
    hide Tree, Frames;
    forall v: nat ensures Pte(n, bt, r, v) == 0 {
      hide Pte;
      assert v < k || Pte(m, at, r, v) == 0;
    }
    forall u | u in bt && u.Page? ensures u.r != r {
      hide Pte;
      PageIs(n, bt, u);
      MappedMeans(n, free, bt, use, lo, hi, u.r, Vpn(u));
    }
    forall w, i | w in bt && w.Low? && Under(w, Root(r)) && 0 <= i < ENTRIES ensures !V(n[bt[w]][i]) {
      VpnIndices(w.a, w.b, i);
      NoPte();
      assert Pte(n, bt, r, w.a * 0x4_0000 + w.b * 512 + i) == 0;
      assert w == Low(r, w.a, w.b);
    }
  }

  lemma AllGone(m: Memory, at: map<Use, nat>, n: Memory, bt: map<Use, nat>, o: Memory, ct: map<Use, nat>, r: nat,
                k: nat)
    requires Unmapped(m, at, n, bt, r, 0, k) && PagesRemoved(at, bt, r, 0, k) && SubtreeFreed(n, bt, o, ct, Root(r))
    requires (forall u :: u in bt && u.Page? ==> u.r != r)
    ensures TableGone(m, at, o, ct, r)
  {
    hide Vpn, A, B, C, V;
    assert forall q: nat, v: nat :: q != r ==> Pte(n, bt, q, v) == Pte(m, at, q, v) by {
      hide Pte;
    }
    forall q: nat, v: nat | q != r ensures Pte(o, ct, q, v) == Pte(n, bt, q, v) {
    }
  }

  // ---------- One new page ----------

  lemma PageAddress(v: nat)
    ensures First(v * PGSIZE) == v && Last(v * PGSIZE, PGSIZE) == v
  {
  }

  // The frame that kalloc returned is filled.
  lemma Fill(m: Memory, free: seq<nat>, at: map<Use, nat>, use: map<nat, Use>, lo: nat, hi: nat, f: nat,
             contents: seq<int>)
    requires Ready(m, free, at, use, lo, hi) && Held(f) in at && |contents| == ENTRIES
    ensures at[Held(f)] == f < |m| && Ready(m[f := contents], free, at, use, lo, hi)
    ensures SameMaps(m, at, m[f := contents], at)
    ensures forall u :: u in at && u != Held(f) ==> at[u] != f
  {
    ReadyFacts(m, free, at, use, lo, hi);
    assert Shape(m, at) && Apart(at);
    hide Pte, Frames, Tree;
    DataChanges(m, at, f, contents);
  }

  lemma Refilled(m: Memory, at: map<Use, nat>, n: Memory, bt: map<Use, nat>, f: nat, contents: seq<int>)
    requires f < |m| && bt == at[Held(f) := f] && Held(f) !in at && (forall u :: u in bt && u != Held(f) ==> bt[u] != f)
    requires SameMaps(m, at, n, bt) && SameData(m, at, n) && SameMaps(n, bt, n[f := contents], bt)
    ensures SameMaps(m, at, n[f := contents], bt) && SameData(m, at, n[f := contents])
  {
    hide Pte;
    forall u | u in at ensures at[u] != f {
      assert u in bt && bt[u] == at[u];
    }
  }

  lemma FreshMeans(m: Memory, at: map<Use, nat>, n: Memory, bt: map<Use, nat>, r: nat, v: nat)
    requires SameMaps(m, at, n, bt)
    ensures Pte(n, bt, r, v) == Pte(m, at, r, v)
  {
    hide Pte;
  }

  lemma MappedKeeps(m: Memory, at: map<Use, nat>, n: Memory, bt: map<Use, nat>, r: nat, v0: nat, v1: nat, p: nat,
                    perm: nat, u: Use)
    requires Mapped(m, at, n, bt, r, v0, v1, p, perm) && u in at
    ensures u in bt && bt[u] == at[u]
    ensures v0 < v1 ==> Pte(n, bt, r, v0) == MakePte(p, OrV(perm))
  {
    hide Pte, MakePte, OrV;
  }

  // The page that is now mapped had no owner.
  lemma NoPageYet(m: Memory, at: map<Use, nat>, n: Memory, o: Memory, free: seq<nat>, ct: map<Use, nat>,
                  use: map<nat, Use>, lo: nat, hi: nat, r: nat, v: nat, f: nat, perm: nat)
    requires Mapped(n, at[Held(f) := f], o, ct, r, v, v + 1, f, perm) && Held(f) in ct && ct[Held(f)] == f
    requires Ready(o, free, ct, use, lo, hi) && Held(f) !in at && perm < 1024 && perm / 2 % 8 != 0 && f < |o|
    ensures PageOf(r, v) !in ct
  {
    hide A, B, C, V, Leaf, Ppn, MakePte, OrV, Storable, Pte;
    PteStorable(o, f, perm);
    MappedMeans(o, free, ct, use, lo, hi, r, v);
    MappedKeeps(n, at[Held(f) := f], o, ct, r, v, v + 1, f, perm, Held(f));
    hide Mapped, Tree;
  }

  // mappages failed: the page is given back.
  lemma PageUndone(m: Memory, at: map<Use, nat>, n: Memory, o: Memory, ct: map<Use, nat>, p: Memory, r: nat, v: nat,
                   f: nat, perm: nat)
    requires Held(f) !in at && SameMaps(m, at, n, at[Held(f) := f]) && SameData(m, at, n)
    requires Mapped(n, at[Held(f) := f], o, ct, r, v, v, f, perm)
    requires SameMaps(o, ct, p, ct - {Held(f)}) && SameData(o, ct - {Held(f)}, p)
    ensures Grown(m, at, p, ct - {Held(f)}, r)
  {
    hide Pte, MakePte, OrV;
    var bt := at[Held(f) := f];
    assert TablesGrown(at, ct - {Held(f)}, r);
    assert SameMaps(m, at, p, ct - {Held(f)});
    assert SameData(m, at, p);
  }

  // mappages succeeded: the frame is now the page of the table.
  lemma PageSettled(m: Memory, free: seq<nat>, at: map<Use, nat>, use: map<nat, Use>, lo: nat, hi: nat, r: nat, v: nat,
                    f: nat, perm: nat)
    requires Ready(m, free, at, use, lo, hi) && Held(f) in at && at[Held(f)] == f && f < |m| && PageOf(r, v) !in at
    requires Pte(m, at, r, v) == MakePte(f, OrV(perm)) && perm < 1024 && perm / 2 % 8 != 0
    ensures var bt := Renamed(at, Held(f), PageOf(r, v));
            Ready(m, free, bt, use[f := PageOf(r, v)], lo, hi) && SameMaps(m, at, m, bt)
  {
    hide A, B, C, V, Leaf, Ppn, MakePte, OrV, Storable;
    PteStorable(m, f, perm);
    NoPte();
    assert LowOf(r, v) in at;
    hide Pte;
    RenameFrame(free, at, use, lo, hi, Held(f), PageOf(r, v));
    assert forall u :: u in at && u != Held(f) ==> at[u] != f;
    hide Frames;
    DataLeaves(m, at, Held(f));
    var ct := at - {Held(f)};
    assert LowOf(r, v) in ct;
    hide Tree;
    PageJoins(m, ct, r, v);
  }

  lemma PageAdded(m: Memory, at: map<Use, nat>, n: Memory, o: Memory, ct: map<Use, nat>, r: nat, v: nat, f: nat,
                  perm: nat, contents: seq<int>)
    requires Held(f) !in at && SameMaps(m, at, n, at[Held(f) := f]) && SameData(m, at, n) && f < |n| && n[f] == contents
    requires Mapped(n, at[Held(f) := f], o, ct, r, v, v + 1, f, perm) && PageOf(r, v) !in ct
    requires SameMaps(o, ct, o, Renamed(ct, Held(f), PageOf(r, v)))
    ensures Added(m, at, o, Renamed(ct, Held(f), PageOf(r, v)), r, v, v + 1)
    ensures HasPage(o, Renamed(ct, Held(f), PageOf(r, v)), r, v, perm, contents)
  {
    VpnOf(r, v);
    hide Pte, MakePte, OrV, A, B, C, Vpn;
    var bt, dt := at[Held(f) := f], Renamed(ct, Held(f), PageOf(r, v));
    assert PagesAdded(at, dt, r, v, v + 1);
    assert SameMapsBut(m, at, o, dt, r, v, v + 1);
    assert Held(f) in bt && ct[Held(f)] == f && o[f] == n[f];
    assert Pte(o, ct, r, v) == MakePte(f + (v - v), OrV(perm));
  }

  /** Physical memory and its allocator. */
  class Machine {
    const lo: nat    // the first frame after the kernel
    const hi: nat    // PHYSTOP
    var mem: Memory
    var free: seq<nat>    // kmem.freelist
    ghost var at: map<Use, nat>
    ghost var use: map<nat, Use>

    ghost predicate Valid()
      reads this
    {
      Ready(mem, free, at, use, lo, hi)
    }

    /** kinit and freerange: every whole page from the end of the kernel to PHYSTOP is free. */
    constructor Kinit(end: nat, phystop: nat, total: nat)
      requires 0 < Up(end) <= First(phystop) <= total
      ensures Valid() && lo == Up(end) && hi == First(phystop) && |mem| == total
      ensures at == map[] && forall f :: lo <= f < hi ==> f in free
    {
      lo, hi := Up(end), First(phystop);
      mem := Zeroed(total);
      free := [];
      at := AllHeld(Up(end), First(phystop));
      use := HeldUses(Up(end), First(phystop));
      new;
      hide Zeroed, AllHeld, HeldUses;
      AllHeldFrames(lo, hi);
      hide Frames, First;
      var p := lo;
      while PastPage(p) <= phystop
        invariant lo <= p <= hi && Frames(free, at, use, lo, hi) && |mem| == total
        invariant forall f :: 0 <= f < total ==> |mem[f]| == ENTRIES
        invariant at == AllHeld(p, hi)
        decreases hi - p
      {
        PageBefore(p, phystop);
        HeldLess(p, hi);
        Kfree(p, Held(p));
        p := p + 1;
      }
      PageBefore(p, phystop);
      NoneHeld(mem, free, at, use, lo, hi);
    }

    /** kalloc: 0 when there is no free frame. */
    method Kalloc() returns (f: nat)
      requires Valid()
      modifies this
      ensures Valid()
      ensures f == 0 ==> old(free) == [] && free == [] && mem == old(mem) && at == old(at) && use == old(use)
      ensures f != 0 ==> old(free) != [] && f == old(free)[0] && free == old(free)[1..] && Held(f) !in old(at)
      ensures f != 0 ==>
        lo <= f < hi && f < |mem| == |old(mem)| && at == old(at)[Held(f) := f] && use == old(use)[f := Held(f)]
      ensures f != 0 ==> mem == old(mem)[f := Filled(5)]
      ensures SameMaps(old(mem), old(at), mem, at) && SameData(old(mem), old(at), mem)
    {
      hide Ready, Filled, Pte;
      ReadyFacts(mem, free, at, use, lo, hi);
      if free == [] {
        GrownSelf(mem, at, 0);
        return 0;
      }
      Popped(mem, free, at, use, lo, hi);
      f := free[0];
      free := free[1..];
      mem := mem[f := Filled(5)];
      at := at[Held(f) := f];
      use := use[f := Held(f)];
    }

    /** kfree, of the frame that `u` uses: it is not free, and it is one of the allocator's. */
    method Kfree(f: nat, ghost u: Use)
      requires Frames(free, at, use, lo, hi) && hi <= |mem| && u in at && at[u] == f
      modifies this
      ensures lo <= f < hi && f !in old(free)
      ensures mem == old(mem)[f := Filled(1)] && free == [f] + old(free)
      ensures at == old(at) - {u} && use == old(use) - {f} && Frames(free, at, use, lo, hi)
    {
      PushFrame(free, at, use, lo, hi, u);
      FramesAllApart(free, at, use, lo, hi);
      hide Frames, Filled;
      mem := mem[f := Filled(1)];
      free := [f] + free;
      at := at - {u};
      use := use - {f};
    }

    // One level of walk: the table that entry `i` points to, or 0.
    method Descend(f: nat, i: nat, alloc: bool, ghost u: Use) returns (g: nat)
      requires Valid() && u in at && (u.Root? || u.Mid?) && f == at[u] && i < ENTRIES
      modifies this
      ensures Valid() && Grown(old(mem), old(at), mem, at, u.r)
      ensures !alloc ==> mem == old(mem) && free == old(free) && at == old(at) && use == old(use)
      ensures g != 0 ==> Child(u, i) in at && at[Child(u, i)] == g
      ensures g == 0 ==> Child(u, i) !in at && (alloc ==> free == [])
    {
      hide Ready, V, Ppn, MakePte, Leaf, Filled, Grown, SameMaps, SameData, Renamed;
      EntryMeans(mem, free, at, use, lo, hi, u, i);
      GrownSelf(mem, at, u.r);
      ghost var m0, free0, at0, use0 := mem, free, at, use;
      var pte := mem[f][i];
      if V(pte) {
        return Ppn(pte);
      }
      if !alloc {
        return 0;
      }
      g := Kalloc();
      if g != 0 {
        TableLinked(m0, free0, at0, use0, lo, hi, u, i);
        mem := mem[g := Filled(0)];
        mem := mem[f := mem[f][i := MakePte(g, PTE_V)]];
        at := Renamed(at, Held(g), Child(u, i));
        use := use[g := Child(u, i)];
      }
    }

    /**
     walk: the place of the entry for page `v`, making the tables above it if `alloc`.
     Nothing but empty tables is new.
     */
    method Walk(r: nat, v: nat, alloc: bool) returns (ok: bool, f: nat, i: nat)
      requires Valid() && Root(r) in at && v < MAXVPN
      modifies this
      ensures Valid() && Grown(old(mem), old(at), mem, at, r)
      ensures !alloc ==> mem == old(mem) && free == old(free) && at == old(at) && use == old(use)
      ensures ok ==> LowOf(r, v) in at && f == at[LowOf(r, v)] && i == C(v)
      ensures !ok ==> LowOf(r, v) !in at && (alloc ==> free == [])
    {
      hide Ready, Grown, A, B, C;
      IndicesOf(v);
      ReadyFacts(mem, free, at, use, lo, hi);
      ghost var m0, at0 := mem, at;
      f := Descend(r, A(v), alloc, Root(r));
      TreeAbove(mem, free, at, use, lo, hi, r, v);
      if f == 0 {
        return false, 0, 0;
      }
      ghost var m1, at1 := mem, at;
      f := Descend(f, B(v), alloc, Mid(r, A(v)));
      GrownTwice(m0, at0, m1, at1, mem, at, r);
      ok, i := f != 0, C(v);
    }

    /**
     mappages: the pages of [va, va + size) get the frames from pa on.  On failure a first
     part of them, up to page `end`, is mapped and no frame is free.
     */
    method Mappages(r: nat, va: nat, size: nat, pa: nat, perm: nat) returns (ret: int, ghost end: nat)
      requires Valid() && Root(r) in at && size > 0 && Last(va, size) < MAXVPN
      requires perm < 1024 && perm / 2 % 8 != 0
      requires First(pa) + (Last(va, size) - First(va)) < |mem|
      requires forall v :: First(va) <= v <= Last(va, size) ==> Pte(mem, at, r, v) == 0
      modifies this
      ensures Valid() && First(va) <= end <= Last(va, size) + 1
      ensures Mapped(old(mem), old(at), mem, at, r, First(va), end, First(pa), perm)
      ensures ret == 0 <==> end == Last(va, size) + 1
      ensures ret == 0 || (ret == -1 && free == [])
    {
      hide Ready, Grown, Mapped, A, B, C, Pte, MakePte, OrV, V, Leaf, Ppn, First, Last, Storable, WithPte;
      ghost var m0, at0 := mem, at;
      var v, last, p := First(va), Last(va, size), First(pa);
      MappedNone(mem, at, r, v, p, perm);
      ghost var v0, p0 := v, p;
      while true
        invariant Valid() && Root(r) in at && v0 <= v <= last && |mem| == |m0| && p == p0 + (v - v0)
        invariant Mapped(m0, at0, mem, at, r, v0, v, p0, perm)
        decreases last - v
      {
        ghost var m1, at1 := mem, at;
        var ok, f, i := Walk(r, v, true);
        MappedGrows(m0, at0, m1, at1, mem, at, r, v0, v, p0, perm);
        MappedShape(m0, at0, mem, at, r, v0, v, p0, perm);
        if !ok {
          return -1, v;
        }
        MapOne(mem, free, at, use, lo, hi, r, v, p, perm);
        ghost var m2 := mem;
        assert !V(mem[f][i]);    // otherwise a panic
        mem := mem[f := mem[f][i := MakePte(p, OrV(perm))]];
        MappedNext(m0, at0, m2, at, mem, r, v0, v, p0, perm);
        if v == last {
          break;
        }
        v := v + 1;
        p := p + 1;
      }
      ret, end := 0, last + 1;
    }

    /**
     uvmunmap: the pages map nothing any more, and if `doFree` their frames are free.  They
     must be mapped: anything else is a panic.
     */
    method Uvmunmap(r: nat, v0: nat, npages: nat, doFree: bool)
      requires Valid() && Root(r) in at && v0 + npages <= MAXVPN && CanUnmap(mem, at, r, v0, v0 + npages, doFree)
      modifies this
      ensures Valid() && Unmapped(old(mem), old(at), mem, at, r, v0, v0 + npages)
      ensures if doFree then PagesRemoved(old(at), at, r, v0, v0 + npages) else at == old(at) && free == old(free)
    {
      hide Ready, Grown, Unmapped, PagesRemoved, CanUnmap, A, B, C, Pte, V, Leaf, Ppn, Filled;
      ghost var m0, at0 := mem, at;
      UnmappedNone(mem, at, r, v0);
      var v := v0;
      while v < v0 + npages
        invariant Valid() && Root(r) in at && v0 <= v <= v0 + npages
        invariant Unmapped(m0, at0, mem, at, r, v0, v)
        invariant if doFree then PagesRemoved(at0, at, r, v0, v) else at == at0 && free == old(free)
      {
        CanUnmapLater(m0, at0, mem, at, r, v0, v, v0 + npages, doFree);
        UnmapPass(r, v, doFree, m0, at0, v0);
        v := v + 1;
      }
    }

    // One pass of uvmunmap.
    method UnmapPass(r: nat, v: nat, doFree: bool, ghost m0: Memory, ghost at0: map<Use, nat>, ghost v0: nat)
      requires Valid() && Root(r) in at && v0 <= v < MAXVPN && Pte(mem, at, r, v) != 0
               && (PageOf(r, v) in at <==> doFree)
      requires Unmapped(m0, at0, mem, at, r, v0, v)
      requires if doFree then PagesRemoved(at0, at, r, v0, v) else at == at0
      modifies this
      ensures Valid() && Root(r) in at && Unmapped(m0, at0, mem, at, r, v0, v + 1)
      ensures if doFree then PagesRemoved(at0, at, r, v0, v + 1) else at == at0 && free == old(free)
    {
      hide Grown, Unmapped, PagesRemoved, A, B, C, Pte, V, Leaf, Ppn, Filled, Frames, Tree;
      ghost var m1, free1, at1, use1 := mem, free, at, use;
      MappedMeans(mem, free, at, use, lo, hi, r, v);
      var ok, f, i := Walk(r, v, false);
      assert ok && V(mem[f][i]) && Leaf(mem[f][i]);    // otherwise a panic
      if doFree {
        OnePageRemoved(m1, at0, at1, r, v0, v);
        UnmapPage(m1, free1, at1, use1, lo, hi, r, v);
        Kfree(Ppn(mem[f][i]), PageOf(r, v));
      } else {
        UnmapOne(m1, free1, at1, use1, lo, hi, r, v);
      }
      mem := mem[f := mem[f][i := 0]];
      UnmappedNext(m0, at0, m1, at1, mem, at, r, v0, v);
    }

    /** uvmdealloc */
    method Uvmdealloc(r: nat, oldsz: nat, newsz: nat) returns (sz: nat)
      requires Valid() && Root(r) in at && Up(oldsz) <= MAXVPN
      requires newsz < oldsz ==> CanUnmap(mem, at, r, Up(newsz), Up(oldsz), true)
      modifies this
      ensures Valid() && sz == if newsz < oldsz then newsz else oldsz
      ensures newsz >= oldsz ==> mem == old(mem) && at == old(at) && free == old(free) && use == old(use)
      ensures newsz < oldsz ==> Unmapped(old(mem), old(at), mem, at, r, Up(newsz), Up(oldsz))
                                && PagesRemoved(old(at), at, r, Up(newsz), Up(oldsz))
    {
      hide Ready, Unmapped, PagesRemoved, CanUnmap;
      if newsz >= oldsz {
        return oldsz;
      }
      assert Up(newsz) <= Up(oldsz);
      hide Up;
      if Up(newsz) < Up(oldsz) {
        Uvmunmap(r, Up(newsz), Up(oldsz) - Up(newsz), true);
      } else {
        UnmappedNone(mem, at, r, Up(newsz));
      }
      sz := newsz;
    }

    /**
     The body that the loops of uvmalloc and uvmcopy share: a page of its own for page `v`
     of the table.  On failure only empty tables are new.
     */
    method AddPage(r: nat, v: nat, perm: nat, contents: seq<int>) returns (ok: bool)
      requires Valid() && Root(r) in at && v < MAXVPN && perm < 1024 && perm / 2 % 8 != 0
      requires Pte(mem, at, r, v) == 0 && |contents| == ENTRIES
      modifies this
      ensures Valid()
      ensures ok ==> Added(old(mem), old(at), mem, at, r, v, v + 1) && HasPage(mem, at, r, v, perm, contents)
      ensures !ok ==> Grown(old(mem), old(at), mem, at, r)
    {
      hide Ready, Grown, Mapped, SameMaps, SameData, A, B, C, Pte, MakePte, OrV, First, Last, Filled, Added, HasPage,
           Frames, Tree;
      ghost var m0, at0 := mem, at;
      GrownSelf(mem, at, r);
      var f := Kalloc();
      if f == 0 {
        return false;
      }
      Fill(mem, free, at, use, lo, hi, f, contents);
      Refilled(m0, at0, mem, at, f, contents);
      FreshMeans(m0, at0, mem[f := contents], at, r, v);
      mem := mem[f := contents];
      PageAddress(v);
      PageAddress(f);
      ghost var m1 := mem;
      var ret, end := Mappages(r, v * PGSIZE, PGSIZE, f * PGSIZE, perm);
      ghost var m2, at2, free2, use2 := mem, at, free, use;
      MappedKeeps(m1, at0[Held(f) := f], mem, at, r, v, end, f, perm, Held(f));
      ReadyFacts(mem, free, at, use, lo, hi);
      if ret != 0 {
        Pushed(mem, free, at, use, lo, hi, Held(f));
        Kfree(f, Held(f));
        PageUndone(m0, at0, m1, m2, at2, mem, r, v, f, perm);
        return false;
      }
      NoPageYet(m0, at0, m1, m2, free, at, use, lo, hi, r, v, f, perm);
      PageSettled(mem, free, at, use, lo, hi, r, v, f, perm);
      PageAdded(m0, at0, m1, mem, at, r, v, f, perm, contents);
      at := Renamed(at, Held(f), PageOf(r, v));
      use := use[f := PageOf(r, v)];
      ok := true;
    }

    /**
     uvmalloc: zeroed pages up to `newsz`; or 0, and the table maps what it did before.
     */
    method Uvmalloc(r: nat, oldsz: nat, newsz: nat, xperm: nat) returns (sz: nat)
      requires Valid() && Root(r) in at && Up(newsz) <= MAXVPN
      requires xperm in {0, PTE_W, PTE_X, PTE_W + PTE_X}
      requires forall v :: Up(oldsz) <= v < Up(newsz) ==> Pte(mem, at, r, v) == 0
      modifies this
      ensures Valid()
      ensures newsz < oldsz ==> sz == oldsz && mem == old(mem) && at == old(at) && free == old(free)
      ensures newsz >= oldsz && sz == newsz ==>
        Allocated(old(mem), old(at), mem, at, r, Up(oldsz), Up(newsz), PTE_R + PTE_U + xperm)
      ensures newsz >= oldsz && sz != newsz ==> sz == 0 && Grown(old(mem), old(at), mem, at, r)
    {
      hide Ready, Allocated, Added, Grown, HasPage, Pte, CanUnmap, Unmapped, PagesRemoved, NoPages, Filled;
      if newsz < oldsz {
        return oldsz;
      }
      ghost var m0, at0 := mem, at;
      UpOf(oldsz, newsz);
      NothingMapped(mem, free, at, use, lo, hi, r, Up(oldsz), Up(newsz));
      AllocatedNone(mem, at, r, Up(oldsz), PTE_R + PTE_U + xperm);
      hide Up;
      var v := Up(oldsz);
      while v < Up(newsz)
        invariant Valid() && Root(r) in at && Up(oldsz) <= v <= Up(newsz)
        invariant Allocated(m0, at0, mem, at, r, Up(oldsz), v, PTE_R + PTE_U + xperm)
      {
        ghost var m1, at1 := mem, at;
        AllocatedAdded(m0, at0, mem, at, r, Up(oldsz), v, PTE_R + PTE_U + xperm);
        StillUnmapped(m0, at0, mem, at, r, Up(oldsz), v, v);
        var ok := AddPage(r, v, PTE_R + PTE_U + xperm, Filled(0));
        if !ok {
          AddedGrows(m0, at0, m1, at1, mem, at, r, Up(oldsz), v);
          StillUnmapped(m0, at0, mem, at, r, Up(oldsz), v, v);
          Undo(r, Up(oldsz), v, Up(newsz), m0, at0);
          return 0;
        }
        AllocatedNext(m0, at0, m1, at1, mem, at, r, Up(oldsz), v, PTE_R + PTE_U + xperm);
        StillUnmapped(m1, at1, mem, at, r, v, v + 1, v + 1);
        v := v + 1;
      }
      sz := newsz;
    }

    // The pages added so far are removed.
    method Undo(r: nat, v0: nat, v: nat, ghost v1: nat, ghost m0: Memory, ghost at0: map<Use, nat>)
      requires Valid() && Root(r) in at && v0 <= v <= v1 && v <= MAXVPN && Added(m0, at0, mem, at, r, v0, v)
      requires NoPages(at0, r, v0, v1) && forall w :: v0 <= w < v1 ==> Pte(m0, at0, r, w) == 0
      modifies this
      ensures Valid() && Grown(m0, at0, mem, at, r)
    {
      hide Ready, Added, Grown, Pte, CanUnmap, Unmapped, PagesRemoved, Vpn, Up;
      ghost var m1, at1 := mem, at;
      assert NoPages(at0, r, v0, v);
      hide NoPages;
      AddedCanUnmap(m0, at0, mem, free, at, use, lo, hi, r, v0, v);
      UpOfPages(v0);
      UpOfPages(v);
      var sz := Uvmdealloc(r, v * PGSIZE, v0 * PGSIZE);
      if v == v0 {
        UnmappedNone(mem, at, r, v0);
      }
      AddedUndone(m0, at0, m1, at1, mem, at, r, v0, v);
    }

    /**
     uvmcopy: every page of `r` below `sz` is copied into `q`, permissions and contents; or
     -1, and `q` maps what it did before.
     */
    method Uvmcopy(r: nat, q: nat, sz: nat) returns (ret: int)
      requires Valid() && Root(r) in at && Root(q) in at && r != q && Up(sz) <= MAXVPN
      requires forall v :: 0 <= v < Up(sz) ==> PageOf(r, v) in at && Pte(mem, at, q, v) == 0
      modifies this
      ensures Valid() && (ret == 0 || ret == -1)
      ensures ret == 0 ==> Copied(old(mem), old(at), mem, at, r, q, Up(sz))
      ensures ret == -1 ==> Grown(old(mem), old(at), mem, at, q)
    {
      hide Ready, Copied, Added, Grown, HasPage, Pte, CanUnmap, Unmapped, PagesRemoved, NoPages, Filled, A, B, C, V,
           Leaf, Ppn, Flags, Up, IsCopied;
      ghost var m0, at0 := mem, at;
      NothingMapped(mem, free, at, use, lo, hi, q, 0, Up(sz));
      CopiedNone(mem, at, r, q);
      var v := 0;
      while v < Up(sz)
        invariant Valid() && Root(r) in at && Root(q) in at && v <= Up(sz)
        invariant Copied(m0, at0, mem, at, r, q, v)
      {
        ghost var m1, at1 := mem, at;
        CopiedAdded(m0, at0, mem, at, r, q, v);
        ReadyPage(m0, at0, mem, free, at, use, lo, hi, r, q, v);
        StillUnmapped(m0, at0, mem, at, q, 0, v, v);
        var ok, f, i := Walk(r, v, false);
        assert ok && V(mem[f][i]);    // otherwise a panic
        var flags, pa := Flags(mem[f][i]), Ppn(mem[f][i]);
        ok := AddPage(q, v, flags, mem[pa]);
        if !ok {
          AddedGrows(m0, at0, m1, at1, mem, at, q, 0, v);
          StillUnmapped(m0, at0, mem, at, q, 0, v, v);
          UndoCopy(q, v, Up(sz), m0, at0);
          return -1;
        }
        CopiedPage(m0, at0, mem, at, r, q, v);
        CopiedNext(m0, at0, m1, at1, mem, at, r, q, v);
        StillUnmapped(m1, at1, mem, at, q, v, v + 1, v + 1);
        v := v + 1;
      }
      ret := 0;
    }

    // The error exit of uvmcopy.
    method UndoCopy(q: nat, v: nat, ghost v1: nat, ghost m0: Memory, ghost at0: map<Use, nat>)
      requires Valid() && Root(q) in at && v <= v1 && v <= MAXVPN && Added(m0, at0, mem, at, q, 0, v)
      requires NoPages(at0, q, 0, v1) && forall w :: 0 <= w < v1 ==> Pte(m0, at0, q, w) == 0
      modifies this
      ensures Valid() && Grown(m0, at0, mem, at, q)
    {
      hide Ready, Added, Grown, Pte, CanUnmap, Unmapped, PagesRemoved, Vpn;
      ghost var m1, at1 := mem, at;
      assert NoPages(at0, q, 0, v);
      hide NoPages;
      AddedCanUnmap(m0, at0, mem, free, at, use, lo, hi, q, 0, v);
      Uvmunmap(q, 0, v, true);
      AddedUndone(m0, at0, m1, at1, mem, at, q, 0, v);
    }

    /** uvmcreate: an empty table, or 0. */
    method Uvmcreate() returns (r: nat)
      requires Valid()
      modifies this
      ensures Valid()
      ensures r == 0 ==> old(free) == [] && mem == old(mem) && at == old(at)
      ensures r != 0 ==> Root(r) !in old(at) && at == old(at)[Root(r) := r]
      ensures r != 0 ==> SameMaps(old(mem), old(at), mem, at) && MapsNothing(mem, at, r)
    {
      hide Ready, Filled, Pte, Renamed, SameMaps, SameData;
      ghost var m0, free0, at0, use0 := mem, free, at, use;
      r := Kalloc();
      if r != 0 {
        RootMade(m0, free0, at0, use0, lo, hi, r);
        mem := mem[r := Filled(0)];
        at := Renamed(at, Held(r), Root(r));
        use := use[r := Root(r)];
      }
    }

    /**
     freewalk: the table and all tables below it are free.  There must be no leaf: that
     would be a panic.
     */
    method Freewalk(f: nat, ghost u: Use)
      requires Valid() && u in at && u.IsTable() && at[u] == f && LeafLess(mem, at, u)
      modifies this
      ensures SubtreeFreed(old(mem), old(at), mem, at, u)
      ensures 0 < lo <= hi <= |mem| && Frames(free, at, use, lo, hi) && TreeBut(mem, at, u)
      ensures u.Root? ==> Valid()
      decreases if u.Root? then 2 else if u.Mid? then 1 else 0
    {
      hide Ready, V, Leaf, Ppn, MakePte, Frames, Tree, TreeBut, LeafLess, Freeing, SubtreeFreed, Filled;
      ghost var m0, at0 := mem, at;
      FreeingNone(mem, at, u);
      var i := 0;
      while i < 512
        invariant i <= 512 && Valid() && u in at && at[u] == f && LeafLess(mem, at, u)
        invariant Freeing(m0, at0, mem, at, u, i)
      {
        EntryKinds(mem, free, at, use, lo, hi, u, i);
        var pte := mem[f][i];
        if V(pte) && !Leaf(pte) {
          ghost var m1, at1 := mem, at;
          Freewalk(Ppn(pte), Child(u, i));
          FreedChild(m0, at0, m1, at1, mem, free, at, use, lo, hi, u, i);
          mem := mem[f := mem[f][i := 0]];
        } else {
          assert !V(pte);    // otherwise a panic
          AboveOf(mem, free, at, use, lo, hi);
          FreeingSkips(m0, at0, mem, at, u, i);
        }
        i := i + 1;
      }
      FreedTable(m0, at0, mem, free, at, use, lo, hi, u);
      Kfree(f, u);
    }

    /**
     uvmfree: every frame of the table, its pages and its tables, is free; nothing else is
     touched.  All leaves must be pages below `sz`.
     */
    method Uvmfree(r: nat, sz: nat)
      requires Valid() && Root(r) in at && Up(sz) <= MAXVPN
      requires forall v :: 0 <= v < Up(sz) ==> PageOf(r, v) in at
      requires forall v :: Up(sz) <= v ==> Pte(mem, at, r, v) == 0
      modifies this
      ensures Valid() && TableGone(old(mem), old(at), mem, at, r)
    {
      hide Ready, CanUnmap, Unmapped, PagesRemoved, Pte, LeafLess, SubtreeFreed, TableGone, Frames, Tree, TreeBut;
      ghost var m0, at0 := mem, at;
      OwnedCanUnmap(mem, free, at, use, lo, hi, r, Up(sz));
      UnmappedNone(mem, at, r, 0);
      assert sz == 0 ==> Up(sz) == 0;
      hide Up;
      if sz > 0 {
        Uvmunmap(r, 0, Up(sz), true);
      }
      NoLeafLeft(m0, at0, mem, free, at, use, lo, hi, r, Up(sz));
      ghost var m1, at1 := mem, at;
      Freewalk(r, Root(r));
      AllGone(m0, at0, m1, at1, mem, at, r, Up(sz));
    }
  }
}
