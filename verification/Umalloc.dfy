/**
 malloc, free and morecore of labo2/user/umalloc.c.
 */
module Umalloc {
  import opened FreeLists

  const HEADER: nat := 16    // sizeof(Header)

  // (nbytes + sizeof(Header) - 1) / sizeof(Header) + 1
  function UnitsFor(nbytes: nat): (n: nat)
    ensures n > 0 && HEADER * (n - 1) >= nbytes && (n > 1 ==> HEADER * (n - 2) < nbytes)
  {
    (nbytes + HEADER - 1) / HEADER + 1
  }

  // The units that morecore asks for.
  function AtLeast(nu: nat): nat {
    if nu < 4096 then 4096 else nu
  }

  ghost predicate HasFit(list: seq<nat>, size: Sizes, n: nat) {
    exists k :: 0 < k < |list| && list[k] in size && size[list[k]] >= n
  }

  // ---------- Going round the ring ----------

  // How many steps from entry `k` to entry `f`.
  function Dist(k: nat, f: nat, n: nat): nat
    requires k < n && f < n
  {
    if k <= f then f - k else n - k + f
  }

  lemma DistNext(k: nat, f: nat, n: nat)
    requires k < n && f < n && k != f
    ensures Next(k, n) < n && Dist(Next(k, n), f, n) + 1 == Dist(k, f, n)
  {
  }

  // Every entry that is farther from `f` than entry `k` is too small.
  ghost predicate Scanned(list: seq<nat>, size: Sizes, f: nat, k: nat, n: nat)
    requires k < |list| && f < |list|
  {
    forall i :: 0 <= i < |list| && Dist(i, f, |list|) > Dist(k, f, |list|) ==> list[i] in size && size[list[i]] < n
  }

  lemma ScanBegins(list: seq<nat>, size: Sizes, f: nat, n: nat)
    requires f < |list|
    ensures Next(f, |list|) < |list| && Scanned(list, size, f, Next(f, |list|), n)
  {
  }

  lemma ScanNext(list: seq<nat>, size: Sizes, f: nat, k: nat, n: nat)
    requires k < |list| && f < |list| && k != f && Scanned(list, size, f, k, n)
    requires list[k] in size && size[list[k]] < n
    ensures Next(k, |list|) < |list| && Scanned(list, size, f, Next(k, |list|), n)
  {
    DistNext(k, f, |list|);
  }

  // Back at `f`, nothing fits.
  lemma ScanEnds(list: seq<nat>, size: Sizes, f: nat, n: nat)
    requires f < |list| && Scanned(list, size, f, f, n) && list[f] in size && size[list[f]] < n
    ensures !HasFit(list, size, n)
  {
    forall i | 0 < i < |list| ensures list[i] in size && size[list[i]] < n {
      assert i != f ==> Dist(i, f, |list|) > 0;
    }
  }

  // The freed block, or the one it joined, is large enough.
  lemma FreedFits(list: seq<nat>, size: Sizes, live: map<nat, nat>, arena: set<nat>, bp: nat, t: nat)
    requires Heap(list, size, live, arena, -1) && bp in live && PlaceAfter(list, bp, t)
    ensures var l, s := Linked(list, size, bp, t), LinkedSizes(list, size, bp, t);
            && t + 1 < |l| && l[t + 1] == bp && bp in s && s[bp] >= size[bp]
  {
    LinkedAt(list, size, bp, t);
    hide Linked, Covers, Ordered;
  }

  lemma MergedFits(l: seq<nat>, s: Sizes, live: map<nat, nat>, arena: set<nat>, t: nat, n: nat)
    requires Heap(l, s, live, arena, t) && t + 1 < |l| && s[l[t + 1]] >= n
    ensures if l[t] + s[l[t]] == l[t + 1]
            then HasFit(Without(l, t + 1), s[l[t] := s[l[t]] + s[l[t + 1]]], n)
            else HasFit(l, s, n)
  {
    MergedHeap(l, s, live, arena, t);
    hide Heap;
    if l[t] + s[l[t]] == l[t + 1] {
      assert Without(l, t + 1)[t] == l[t];
    } else {
      assert l[t + 1] in s;
    }
  }

  class Allocator {
    const limit: nat          // where sbrk fails
    var ptr: map<nat, nat>    // s.ptr of every header
    var size: Sizes           // s.size of every header
    var freep: nat            // 0 before the first call of malloc
    var brk: nat
    ghost var list: seq<nat>
    ghost var live: map<nat, nat>
    ghost var arena: set<nat>    // the units that came from sbrk

    ghost predicate Valid()
      reads this
    {
      && BASE < brk && (forall x :: x in arena ==> x < brk)
      && if freep == 0 then list == [] && live == map[] && arena == {}
         else Heap(list, size, live, arena, -1) && Ring(list, ptr) && freep in list
    }

    constructor (start: nat, limit: nat)
      requires BASE < start
      ensures Valid() && freep == 0 && brk == start && this.limit == limit
    {
      this.limit, ptr, size, freep, brk := limit, map[], map[], 0, start;
      list, live, arena := [], map[], {};
    }

    /** Some other caller of sbrk moves the break up. */
    method OtherSbrk(n: nat)
      requires Valid() && brk + n <= limit
      modifies this`brk
      ensures Valid() && brk == old(brk) + n
    {
      brk := brk + n;
    }

    // The search loop of free: the block before `bp`, in address order.
    method FindPlace(bp: nat) returns (p: nat, ghost t: nat)
      requires Valid() && freep != 0 && bp in live
      ensures PlaceAfter(list, bp, t) && p == list[t]
    {
      hide Heap;
      t := PlaceOf(list, size, live, arena, bp);
      p := freep;
      ghost var k: nat :| k < |list| && list[k] == p;
      SearchEnds(list, size, live, arena, bp, t, k);
      assert Links(list, ptr, k);
      while !(p < bp < ptr[p]) && !(p >= ptr[p] && (bp > p || bp < ptr[p]))
        invariant k < |list| && list[k] == p && Links(list, ptr, k)
        invariant (p < bp < ptr[p] || (p >= ptr[p] && (bp > p || bp < ptr[p]))) <==> k == t
        decreases Dist(k, t, |list|)
      {
        DistNext(k, t, |list|);
        k := Next(k, |list|);
        p := ptr[p];
        SearchEnds(list, size, live, arena, bp, t, k);
        assert Links(list, ptr, k);
      }
    }

    /**
     free: the block goes out of use, and the list stays ordered and coalesced.
     */
    method Free(ap: nat)
      requires Valid() && ap > 0 && ap - 1 in live
      modifies this`ptr, this`size, this`freep, this`list, this`live
      ensures Valid() && freep != 0 && live == old(live) - {ap - 1}
      ensures HasFit(list, size, old(live[ap - 1]))
    {
      hide Heap, HasFit, Ring, PlaceAfter;
      var bp := ap - 1;
      var p;
      ghost var t;
      p, t := FindPlace(bp);
      ghost var l, s, v := FreeLinks(list, size, ptr, live, arena, bp, t);
      if bp + size[bp] == ptr[p] {
        ptr, size := ptr[bp := ptr[ptr[p]]], size[bp := size[bp] + size[ptr[p]]];
      } else {
        ptr := ptr[bp := ptr[p]];
      }
      FreeMerges(l, s, ptr, v, arena, bp, t, old(live[bp]));
      live := live - {bp};
      if p + size[p] == bp {
        size := size[p := size[p] + size[bp]];
        ptr := ptr[p := ptr[bp]];
        list := Without(l, t + 1);
      } else {
        ptr := ptr[p := bp];
        list := l;
      }
      freep := p;
      assert list[t] == p;
    }

    /**
     morecore: at least `nu` units more, in the free list; or 0 when sbrk fails.
     */
    method Morecore(nu: nat) returns (p: nat)
      requires Valid() && freep != 0
      modifies this
      ensures Valid() && live == old(live) && freep != 0
      ensures p == 0 ==> list == old(list) && size == old(size) && ptr == old(ptr) && freep == old(freep)
                         && brk == old(brk) && arena == old(arena) && brk + AtLeast(nu) > limit
      ensures p != 0 ==> p == freep && HasFit(list, size, nu)
                         && brk == old(brk) + AtLeast(nu) && arena == old(arena) + Units(old(brk), AtLeast(nu))
    {
      hide Heap, HasFit, Ring;
      var n := AtLeast(nu);
      if brk + n > limit {    // sbrk
        return 0;
      }
      var hp := brk;
      HeapDistinct(list, size, live, arena, -1);
      Granted(list, size, live, arena, hp, n);
      brk := brk + n;
      size := size[hp := n];
      live := live[hp := n];
      arena := arena + Units(hp, n);
      Free(hp + 1);
      FitLess(list, size, nu, n);
      p := freep;
    }

    // The first call of malloc makes a ring of the base alone.
    method Init()
      requires Valid()
      modifies this`ptr, this`size, this`freep, this`list
      ensures Valid() && freep != 0
    {
      hide Heap, Ring;
      if freep == 0 {
        FirstHeap(ptr, size);
        ptr, size := ptr[BASE := BASE], size[BASE := 0];
        freep := BASE;
        list := [BASE];
        assert list[0] == freep;
      }
    }

    /**
     malloc: a block that was not in use, of enough units for `nbytes`; or 0, and nothing
     changes.  It calls morecore at most once.
     */
    method Malloc(nbytes: nat) returns (ap: nat, ghost calls: nat)
      requires Valid() && UnitsFor(nbytes) * HEADER < 0x8000_0000 && nbytes + HEADER <= 0x1_0000_0000
      modifies this
      ensures Valid() && calls <= 1
      ensures ap == 0 ==> live == old(live) && arena == old(arena) && brk + AtLeast(UnitsFor(nbytes)) > limit
      ensures ap != 0 ==> ap - 1 !in old(live) && live == old(live)[ap - 1 := UnitsFor(nbytes)]
      ensures
        if calls == 1 && ap != 0 then arena == old(arena) + Units(old(brk), AtLeast(UnitsFor(nbytes)))
        else arena == old(arena)
    {
      hide Heap, HasFit, Ring, Scanned, UnitsFor;
      var nunits := UnitsFor(nbytes);
      Init();
      var prevp := freep;
      ghost var f: nat :| f < |list| && list[f] == prevp;
      ghost var j: nat, k: nat := f, Next(f, |list|);
      assert Links(list, ptr, f) by { RingAt(list, ptr, f); }
      ScanBegins(list, size, f, nunits);
      calls := 0;
      var p := ptr[prevp];
      while true
        invariant Valid() && freep != 0 && live == old(live) && calls <= 1 && f < |list| && j < |list|
        invariant k == Next(j, |list|) < |list|
        invariant list[f] == freep && list[j] == prevp && list[k] == p && Scanned(list, size, f, k, nunits)
        invariant if calls == 0 then arena == old(arena) && brk == old(brk)
                  else HasFit(list, size, nunits) && arena == old(arena) + Units(old(brk), AtLeast(nunits))
        decreases 1 - calls, Dist(k, f, |list|)
      {
        EntryFacts(list, size, live, arena, ptr, k);
        if size[p] >= nunits {
          ap := Take(prevp, p, nunits, j, k);
          return;
        }
        if p == freep {
          DistinctAt(list, size, live, arena, f, k);
          ScanEnds(list, size, f, nunits);
          assert calls == 0;
          p := Morecore(nunits);
          if p == 0 {
            ap := 0;
            return;
          }
          calls := 1;
          f :| f < |list| && list[f] == p;
          j, k := f, Next(f, |list|);
          ScanBegins(list, size, f, nunits);
        } else {
          ScanNext(list, size, f, k, nunits);
          DistNext(k, f, |list|);
          j, k := k, Next(k, |list|);
        }
        EntryFacts(list, size, live, arena, ptr, j);
        prevp, p := p, ptr[p];
      }
    }

    // The branch of malloc that found a block.
    method Take(prevp: nat, p: nat, nunits: nat, ghost j: nat, ghost k: nat) returns (ap: nat)
      requires Valid() && freep != 0 && j < |list| && k == Next(j, |list|) && list[j] == prevp && list[k] == p
      requires p in size && size[p] >= nunits > 0
      modifies this`ptr, this`size, this`freep, this`list, this`live
      ensures Valid() && ap > 0 && ap - 1 !in old(live) && live == old(live)[ap - 1 := nunits]
    {
      hide Heap, Ring;
      HeapDistinct(list, size, live, arena, -1);
      assert k > 0 && k == j + 1;
      if size[p] == nunits {
        TakeExact(list, size, live, arena, k);
        RingRemove(list, ptr, k);
        ptr := ptr[prevp := ptr[p]];
        list := Without(list, k);
        live := live[p := nunits];
        assert list[j] == prevp;
        freep := prevp;
        return p + 1;
      }
      TakeTail(list, size, live, arena, k, nunits);
      size := size[p := size[p] - nunits];
      var q := p + size[p];
      size := size[q := nunits];
      live := live[q := nunits];
      freep := prevp;
      ap := q + 1;
    }
  }

  lemma RingAt(list: seq<nat>, ptr: map<nat, nat>, k: nat)
    requires Ring(list, ptr) && k < |list|
    ensures Links(list, ptr, k)
  {
  }

  lemma EntryFacts(list: seq<nat>, size: Sizes, live: map<nat, nat>, arena: set<nat>, ptr: map<nat, nat>, k: nat)
    requires Heap(list, size, live, arena, -1) && Ring(list, ptr) && k < |list|
    ensures list[k] in size && Links(list, ptr, k)
  {
    hide Covers;
  }

  lemma DistinctAt(list: seq<nat>, size: Sizes, live: map<nat, nat>, arena: set<nat>, j: nat, k: nat)
    requires Heap(list, size, live, arena, -1) && j < |list| && k < |list| && list[j] == list[k]
    ensures j == k
  {
    HeapDistinct(list, size, live, arena, -1);
    hide Heap;
  }

  lemma FitLess(list: seq<nat>, size: Sizes, n: nat, m: nat)
    requires HasFit(list, size, m) && n <= m
    ensures HasFit(list, size, n)
  {
  }

  // The list with nothing but the base.
  lemma FirstHeap(ptr: map<nat, nat>, size: Sizes)
    ensures Heap([BASE], size[BASE := 0], map[], {}, -1) && Ring([BASE], ptr[BASE := BASE])
  {
  }

  // What the first half of free does.
  lemma FreeLinks(list: seq<nat>, size: Sizes, ptr: map<nat, nat>, live: map<nat, nat>, arena: set<nat>, bp: nat,
                  t: nat)
    returns (l: seq<nat>, s: Sizes, v: map<nat, nat>)
    requires Heap(list, size, live, arena, -1) && Ring(list, ptr) && bp in live && PlaceAfter(list, bp, t)
    ensures bp in size && list[t] in ptr && list[t] in size && ptr[list[t]] in ptr && ptr[list[t]] in size
    ensures size[bp] == live[bp]
    ensures v == live - {bp} && Heap(l, s, v, arena, t)
    ensures t + 1 < |l| && l[t] == list[t] && l[t + 1] == bp && list[t] != bp && bp in s && s[bp] >= live[bp]
    ensures if bp + size[bp] == ptr[list[t]]
            then s == size[bp := size[bp] + size[ptr[list[t]]]] && Ring(l, ptr[bp := ptr[ptr[list[t]]]][list[t] := bp])
            else s == size && Ring(l, ptr[bp := ptr[list[t]]][list[t] := bp])
  {
    hide Heap, Ring, Linked, LinkedSizes, TouchesNext;
    NextOf(list, size, live, arena, ptr, bp, t);
    HeapDistinct(list, size, live, arena, -1);
    l, s, v := Linked(list, size, bp, t), LinkedSizes(list, size, bp, t), live - {bp};
    LinkedHeap(list, size, live, arena, bp, t);
    FreedFits(list, size, live, arena, bp, t);
    RingInsert(list, size, ptr, bp, t);
    LinkedAt(list, size, bp, t);
    if bp + size[bp] == ptr[list[t]] {
      SizesTouch(list, size, bp, t);
    } else {
      SizesApart(list, size, bp, t);
    }
  }

  // What the second half of free does.
  lemma FreeMerges(l: seq<nat>, s: Sizes, ptr: map<nat, nat>, v: map<nat, nat>, arena: set<nat>, bp: nat, t: nat,
                   n: nat)
    requires Heap(l, s, v, arena, t) && t + 1 < |l| && l[t + 1] == bp && l[t] != bp && bp in s && s[bp] >= n
    requires bp in ptr && Ring(l, ptr[l[t] := bp])
    ensures l[t] in s && l[t] >= BASE
    ensures if l[t] + s[l[t]] == bp
            then var z, r := s[l[t] := s[l[t]] + s[bp]], Without(l, t + 1);
              Heap(r, z, v, arena, -1) && Ring(r, ptr[l[t] := ptr[bp]]) && HasFit(r, z, n) && r[t] == l[t]
            else Heap(l, s, v, arena, -1) && HasFit(l, s, n)
  {
    hide Heap, HasFit, Ring;
    HeapDistinct(l, s, v, arena, t);
    MergedHeap(l, s, v, arena, t);
    MergedFits(l, s, v, arena, t, n);
    if l[t] + s[l[t]] == bp {
      RingRemove(l, ptr[l[t] := bp], t + 1);
      PtrTwice(ptr, l[t], bp);
    }
  }

  lemma PtrTwice(ptr: map<nat, nat>, p: nat, bp: nat)
    requires bp in ptr && p != bp
    ensures ptr[p := bp][p := ptr[p := bp][bp]] == ptr[p := ptr[bp]]
  {
  }

  // The successor of the place of `bp`, and whether they touch.
  lemma NextOf(list: seq<nat>, size: Sizes, live: map<nat, nat>, arena: set<nat>, ptr: map<nat, nat>, bp: nat, t: nat)
    requires Heap(list, size, live, arena, -1) && Ring(list, ptr) && bp in live && PlaceAfter(list, bp, t)
    ensures bp in size && list[t] in ptr && ptr[list[t]] in ptr && ptr[list[t]] in size && list[t] in size
    ensures list[t] != bp
    ensures bp + size[bp] == ptr[list[t]] <==> TouchesNext(list, size, bp, t)
    ensures t + 1 < |list| ==> ptr[list[t]] == list[t + 1]
    ensures bp !in list && size[bp] == live[bp]
  {
    hide Covers;
    assert Links(list, ptr, t) && Links(list, ptr, Next(t, |list|));
    HeapDistinct(list, size, live, arena, -1);
  }

  lemma SizesTouch(list: seq<nat>, size: Sizes, bp: nat, t: nat)
    requires Sized(list, size) && t < |list| && bp in size && TouchesNext(list, size, bp, t)
    ensures t + 1 < |list| && LinkedSizes(list, size, bp, t) == size[bp := size[bp] + size[list[t + 1]]]
  {
  }

  lemma SizesApart(list: seq<nat>, size: Sizes, bp: nat, t: nat)
    requires Sized(list, size) && t < |list| && bp in size && !TouchesNext(list, size, bp, t)
    ensures LinkedSizes(list, size, bp, t) == size
  {
  }
}
