/**
 The free list of labo2/user/umalloc.c: blocks of header units, in address order, no two of
 them touching, in a ring through a zero-size base.
 */
module FreeLists {
  const BASE: nat := 1     // where the static header is, below all memory from sbrk

  // s.size of every header.
  type Sizes = map<nat, nat>

  // ---------- The list, in address order ----------

  predicate Sized(list: seq<nat>, size: Sizes) {
    && |list| > 0 && list[0] == BASE
    && (forall k :: 0 <= k < |list| ==> list[k] in size)
    && size[BASE] == 0
    && (forall k :: 0 < k < |list| ==> size[list[k]] > 0)
  }

  /**
   Ascending, and with a gap between any two blocks: no block could be merged with another.
   Only blocks `loose` and `loose + 1` may touch.
   */
  predicate Ordered(list: seq<nat>, size: Sizes, loose: int)
    requires Sized(list, size)
  {
    forall j, k :: 0 <= j < k < |list| ==>
      if j == loose && k == loose + 1 then list[j] + size[list[j]] <= list[k] && list[j] < list[k]
      else list[j] + size[list[j]] < list[k]
  }

  // Blocks of `n` units at `a` and of `m` at `b` have no unit in common.
  predicate Clear(a: nat, n: nat, b: nat, m: nat) {
    a + n <= b || b + m <= a
  }

  // Blocks in use are apart from one another and from the free ones.
  predicate Disjoint(list: seq<nat>, size: Sizes, live: map<nat, nat>)
    requires Sized(list, size)
  {
    && (forall a :: a in live ==> a in size && size[a] == live[a] > 0 && a > BASE)
    && (forall a, b :: a in live && b in live && a != b ==> Clear(a, live[a], b, live[b]))
    && (forall a, k :: a in live && 0 < k < |list| ==> Clear(a, live[a], list[k], size[list[k]]))
  }

  ghost predicate InFree(list: seq<nat>, size: Sizes, x: nat)
    requires Sized(list, size)
  {
    exists k :: 0 < k < |list| && list[k] <= x < list[k] + size[list[k]]
  }

  ghost predicate InLive(live: map<nat, nat>, x: nat) {
    exists a :: a in live && a <= x < a + live[a]
  }

  // The blocks make up exactly the memory that came from sbrk.
  ghost predicate Covers(list: seq<nat>, size: Sizes, live: map<nat, nat>, arena: set<nat>)
    requires Sized(list, size)
  {
    forall x :: x in arena <==> InFree(list, size, x) || InLive(live, x)
  }

  // `loose` is -1 for a list that is fully coalesced.
  ghost predicate Heap(list: seq<nat>, size: Sizes, live: map<nat, nat>, arena: set<nat>, loose: int) {
    && Sized(list, size) && Ordered(list, size, loose)
    && Disjoint(list, size, live) && Covers(list, size, live, arena)
  }

  // ---------- The ring ----------

  function Next(k: nat, n: nat): nat {
    if k + 1 == n then 0 else k + 1
  }

  predicate Links(list: seq<nat>, ptr: map<nat, nat>, k: nat)
    requires k < |list|
  {
    list[k] in ptr && ptr[list[k]] == list[Next(k, |list|)]
  }

  predicate Ring(list: seq<nat>, ptr: map<nat, nat>) {
    forall k :: 0 <= k < |list| ==> Links(list, ptr, k)
  }

  // ---------- free ----------

  // The list has its place for `bp` after entry `t`.
  predicate PlaceAfter(list: seq<nat>, bp: nat, t: nat) {
    t < |list| && list[t] < bp && (t + 1 < |list| ==> bp < list[t + 1])
  }

  lemma {:induction false} PlaceExists(list: seq<nat>, bp: nat) returns (t: nat)
    requires |list| > 0 && list[0] < bp && forall k :: 0 <= k < |list| ==> list[k] != bp
    ensures PlaceAfter(list, bp, t)
  {
    t := 0;
    while t + 1 < |list| && list[t + 1] < bp
      invariant t < |list| && list[t] < bp
      decreases |list| - t
    {
      t := t + 1;
    }
  }

  // A block that was in use has its place in the list.
  lemma PlaceOf(list: seq<nat>, size: Sizes, live: map<nat, nat>, arena: set<nat>, bp: nat) returns (t: nat)
    requires Heap(list, size, live, arena, -1) && bp in live
    ensures PlaceAfter(list, bp, t)
  {
    t := PlaceExists(list, bp);
  }

  // The test that ends the search loop of free.
  lemma SearchEnds(list: seq<nat>, size: Sizes, live: map<nat, nat>, arena: set<nat>, bp: nat, t: nat, k: nat)
    requires Heap(list, size, live, arena, -1) && bp in live && PlaceAfter(list, bp, t) && k < |list|
    ensures var p, q := list[k], list[Next(k, |list|)];
            (p < bp < q || (p >= q && (bp > p || bp < q))) <==> k == t
  {
    hide Covers, InLive, InFree;
  }

  // Does the block end where the next one starts?
  predicate TouchesNext(list: seq<nat>, size: Sizes, bp: nat, t: nat)
    requires t < |list| && bp in size
  {
    t + 1 < |list| && bp + size[bp] == list[t + 1]
  }

  // The list with `bp` in it, merged with the block behind it if they touch.
  function Linked(list: seq<nat>, size: Sizes, bp: nat, t: nat): (r: seq<nat>)
    requires t < |list| && bp in size
  {
    list[..t + 1] + [bp] + if TouchesNext(list, size, bp, t) then list[t + 2..] else list[t + 1..]
  }

  function LinkedSizes(list: seq<nat>, size: Sizes, bp: nat, t: nat): Sizes
    requires Sized(list, size) && t < |list| && bp in size
  {
    if TouchesNext(list, size, bp, t) then size[bp := size[bp] + size[list[t + 1]]] else size
  }

  lemma LinkedHeap(list: seq<nat>, size: Sizes, live: map<nat, nat>, arena: set<nat>, bp: nat, t: nat)
    requires Heap(list, size, live, arena, -1) && bp in live && PlaceAfter(list, bp, t)
    ensures Heap(Linked(list, size, bp, t), LinkedSizes(list, size, bp, t), live - {bp}, arena, t)
  {
    var l, s, v := Linked(list, size, bp, t), LinkedSizes(list, size, bp, t), live - {bp};
    LinkedOrder(list, size, live, bp, t);
    LinkedDisjoint(list, size, live, bp, t);
    LinkedCovers(list, size, live, arena, bp, t);
  }

  // Entry `k` of the new list in the old one.
  function Before(k: nat, t: nat, merged: bool): nat
    requires k != t + 1
  {
    if k <= t then k else if merged then k else k - 1
  }

  lemma LinkedEntries(list: seq<nat>, size: Sizes, live: map<nat, nat>, bp: nat, t: nat)
    requires Sized(list, size) && Ordered(list, size, -1) && Disjoint(list, size, live) && bp in live
    requires PlaceAfter(list, bp, t)
    ensures var l, s, m := Linked(list, size, bp, t), LinkedSizes(list, size, bp, t), TouchesNext(list, size, bp, t);
            && |l| == (if m then |list| else |list| + 1) && t + 1 < |l| && l[t + 1] == bp
            && s[bp] == (if m then size[bp] + size[list[t + 1]] else size[bp])
            && (forall k :: 0 <= k < |list| ==> list[k] != bp)
            && forall k :: 0 <= k < |l| && k != t + 1 ==>
                 Before(k, t, m) < |list| && l[k] == list[Before(k, t, m)] && l[k] in s
                   && s[l[k]] == size[list[Before(k, t, m)]]
  {
    forall k | 0 <= k < |list| ensures list[k] != bp {
    }
  }

  lemma LinkedOrder(list: seq<nat>, size: Sizes, live: map<nat, nat>, bp: nat, t: nat)
    requires Sized(list, size) && Ordered(list, size, -1) && Disjoint(list, size, live) && bp in live
    requires PlaceAfter(list, bp, t)
    ensures Sized(Linked(list, size, bp, t), LinkedSizes(list, size, bp, t))
    ensures Ordered(Linked(list, size, bp, t), LinkedSizes(list, size, bp, t), t)
  {
    LinkedEntries(list, size, live, bp, t);
    AroundPlace(list, size, live, bp, t);
    var l, s, m := Linked(list, size, bp, t), LinkedSizes(list, size, bp, t), TouchesNext(list, size, bp, t);
    hide Linked, LinkedSizes, TouchesNext, Disjoint;
    assert Sized(l, s);
    forall j, k | 0 <= j < k < |l|
      ensures if j == t && k == t + 1 then l[j] + s[l[j]] <= l[k] && l[j] < l[k] else l[j] + s[l[j]] < l[k]
    {
      if j != t + 1 && k != t + 1 {
        assert Before(j, t, m) < Before(k, t, m);
      }
    }
  }

  // What lies to the left and to the right of the place of `bp`.
  lemma AroundPlace(list: seq<nat>, size: Sizes, live: map<nat, nat>, bp: nat, t: nat)
    requires Sized(list, size) && Ordered(list, size, -1) && Disjoint(list, size, live) && bp in live
    requires PlaceAfter(list, bp, t)
    ensures forall j :: 0 <= j < t ==> list[j] + size[list[j]] < bp
    ensures list[t] + size[list[t]] <= bp
    ensures forall k :: t + 1 < k < |list| ==> bp + size[bp] < list[k] && list[t + 1] + size[list[t + 1]] < list[k]
    ensures t + 1 < |list| ==>
      bp + size[bp] <= list[t + 1] && (bp + size[bp] == list[t + 1] <==> TouchesNext(list, size, bp, t))
  {
    assert t > 0 ==> Clear(bp, live[bp], list[t], size[list[t]]);
    if t + 1 < |list| {
      assert Clear(bp, live[bp], list[t + 1], size[list[t + 1]]);
    }
  }

  lemma LinkedDisjoint(list: seq<nat>, size: Sizes, live: map<nat, nat>, bp: nat, t: nat)
    requires Sized(list, size) && Ordered(list, size, -1) && Disjoint(list, size, live) && bp in live
    requires PlaceAfter(list, bp, t)
    requires Sized(Linked(list, size, bp, t), LinkedSizes(list, size, bp, t))
    ensures Disjoint(Linked(list, size, bp, t), LinkedSizes(list, size, bp, t), live - {bp})
  {
    LinkedEntries(list, size, live, bp, t);
    var l, s, v := Linked(list, size, bp, t), LinkedSizes(list, size, bp, t), live - {bp};
    assert forall a :: a in v ==> s[a] == size[a];
    hide Linked, LinkedSizes, Ordered;
    forall a, k | a in v && 0 < k < |l| ensures Clear(a, v[a], l[k], s[l[k]]) {
      if k == t + 1 {
        assert Clear(a, live[a], bp, live[bp]);
        if TouchesNext(list, size, bp, t) {
          assert Clear(a, live[a], list[t + 1], size[list[t + 1]]);
        }
      }
    }
  }

  lemma LinkedCovers(list: seq<nat>, size: Sizes, live: map<nat, nat>, arena: set<nat>, bp: nat, t: nat)
    requires Heap(list, size, live, arena, -1) && bp in live && PlaceAfter(list, bp, t)
    requires Sized(Linked(list, size, bp, t), LinkedSizes(list, size, bp, t))
    ensures Covers(Linked(list, size, bp, t), LinkedSizes(list, size, bp, t), live - {bp}, arena)
  {
    LinkedEntries(list, size, live, bp, t);
    if TouchesNext(list, size, bp, t) {
      TouchMeans(list, size, bp, t);
    }
    var l, s, v, m := Linked(list, size, bp, t), LinkedSizes(list, size, bp, t), live - {bp},
      TouchesNext(list, size, bp, t);
    hide Linked, LinkedSizes, Ordered, TouchesNext, Disjoint, InFree, InLive;
    forall x: nat ensures InFree(l, s, x) || InLive(v, x) <==> InFree(list, size, x) || InLive(live, x) {
      InFreeKept(list, size, l, s, bp, t, m, x);
      InFreeBefore(list, size, l, s, bp, t, m, x);
      InLiveSplit(live, bp, x);
    }
  }

  // Which units a block that enters the list brings, and what it takes from the next one.
  ghost predicate Entered(list: seq<nat>, size: Sizes, l: seq<nat>, s: Sizes, bp: nat, t: nat, m: bool) {
    && Sized(list, size) && Sized(l, s) && bp in size && t < |list| && t + 1 < |l| && l[t + 1] == bp
    && |l| == (if m then |list| else |list| + 1)
    && (m ==> t + 1 < |list| && bp + size[bp] == list[t + 1])
    && s[bp] == (if m then size[bp] + size[list[t + 1]] else size[bp])
    && forall k :: 0 <= k < |l| && k != t + 1 ==>
         Before(k, t, m) < |list| && l[k] == list[Before(k, t, m)] && l[k] in s
           && s[l[k]] == size[list[Before(k, t, m)]]
  }

  lemma InFreeKept(list: seq<nat>, size: Sizes, l: seq<nat>, s: Sizes, bp: nat, t: nat, m: bool, x: nat)
    requires Entered(list, size, l, s, bp, t, m)
    ensures InFree(list, size, x) || bp <= x < bp + size[bp] ==> InFree(l, s, x)
  {
    if InFree(list, size, x) {
      var k :| 0 < k < |list| && list[k] <= x < list[k] + size[list[k]];
      var i := if k <= t then k else if m then k else k + 1;
      assert (m && i == t + 1) || Before(i, t, m) == k;
      assert l[i] <= x < l[i] + s[l[i]];
    } else if bp <= x < bp + size[bp] {
      assert l[t + 1] <= x < l[t + 1] + s[l[t + 1]];
    }
  }

  lemma InFreeBefore(list: seq<nat>, size: Sizes, l: seq<nat>, s: Sizes, bp: nat, t: nat, m: bool, x: nat)
    requires Entered(list, size, l, s, bp, t, m)
    ensures InFree(l, s, x) ==> InFree(list, size, x) || bp <= x < bp + size[bp]
  {
    if InFree(l, s, x) {
      var k :| 0 < k < |l| && l[k] <= x < l[k] + s[l[k]];
      var i := if k == t + 1 then k else Before(k, t, m);
      if k != t + 1 {
        assert list[i] <= x < list[i] + size[list[i]];
      } else if bp + size[bp] <= x {
        assert list[t + 1] <= x < list[t + 1] + size[list[t + 1]];
      }
    }
  }

  lemma InLiveSplit(live: map<nat, nat>, bp: nat, x: nat)
    requires bp in live
    ensures InLive(live, x) <==> InLive(live - {bp}, x) || bp <= x < bp + live[bp]
  {
    if InLive(live, x) {
      var a :| a in live && a <= x < a + live[a];
      assert a != bp ==> a in live - {bp} && (live - {bp})[a] == live[a];
    }
    if InLive(live - {bp}, x) {
      var a :| a in live - {bp} && a <= x < a + (live - {bp})[a];
      assert a in live;
    }
  }

  lemma TouchMeans(list: seq<nat>, size: Sizes, bp: nat, t: nat)
    requires t < |list| && bp in size && TouchesNext(list, size, bp, t)
    ensures t + 1 < |list| && bp + size[bp] == list[t + 1]
  {
  }

  function Without(l: seq<nat>, k: nat): (r: seq<nat>)
    requires k < |l|
    ensures |r| == |l| - 1
    ensures forall i :: 0 <= i < |r| ==> r[i] == l[if i < k then i else i + 1]
  {
    l[..k] + l[k + 1..]
  }

  // The block after entry `t` becomes part of entry `t`.
  lemma MergedHeap(l: seq<nat>, s: Sizes, live: map<nat, nat>, arena: set<nat>, t: nat)
    requires Heap(l, s, live, arena, t) && t + 1 < |l|
    ensures if l[t] + s[l[t]] == l[t + 1]
            then t > 0 && Heap(Without(l, t + 1), s[l[t] := s[l[t]] + s[l[t + 1]]], live, arena, -1)
            else Heap(l, s, live, arena, -1)
  {
    hide Covers, InFree, InLive;
    if l[t] + s[l[t]] == l[t + 1] {
      MergedOrder(l, s, t);
      MergedDisjoint(l, s, live, t);
      MergedCovers(l, s, live, arena, t);
    }
  }

  lemma MergedOrder(l: seq<nat>, s: Sizes, t: nat)
    requires Sized(l, s) && Ordered(l, s, t) && t + 1 < |l| && l[t] + s[l[t]] == l[t + 1]
    ensures t > 0
    ensures var r, z := Without(l, t + 1), s[l[t] := s[l[t]] + s[l[t + 1]]]; Sized(r, z) && Ordered(r, z, -1)
  {
    hide Without;
    assert t > 0;
    var r, z := Without(l, t + 1), s[l[t] := s[l[t]] + s[l[t + 1]]];
    assert forall i :: 0 <= i < |l| && i != t ==> l[i] != l[t];
    assert forall i :: 0 <= i < |r| && i != t ==> z[r[i]] == s[r[i]];
    assert Sized(r, z);
  }

  lemma MergedDisjoint(l: seq<nat>, s: Sizes, live: map<nat, nat>, t: nat)
    requires Sized(l, s) && Ordered(l, s, t) && Disjoint(l, s, live) && 0 < t < |l| - 1 && l[t] + s[l[t]] == l[t + 1]
    requires Sized(Without(l, t + 1), s[l[t] := s[l[t]] + s[l[t + 1]]])
    ensures Disjoint(Without(l, t + 1), s[l[t] := s[l[t]] + s[l[t + 1]]], live)
  {
    hide Without;
    var r, z := Without(l, t + 1), s[l[t] := s[l[t]] + s[l[t + 1]]];
    assert forall i :: 0 <= i < |l| && i != t ==> l[i] != l[t];
    hide Ordered;
    forall a | a in live ensures a != l[t] {
      assert Clear(a, live[a], l[t], s[l[t]]);
    }
    forall a, k | a in live && 0 < k < |r| ensures Clear(a, live[a], r[k], z[r[k]]) {
      if k == t {
        assert Clear(a, live[a], l[t], s[l[t]]) && Clear(a, live[a], l[t + 1], s[l[t + 1]]);
      } else {
        assert r[k] == l[if k < t + 1 then k else k + 1];
      }
    }
  }

  lemma MergedCovers(l: seq<nat>, s: Sizes, live: map<nat, nat>, arena: set<nat>, t: nat)
    requires Sized(l, s) && Ordered(l, s, t) && Covers(l, s, live, arena) && 0 < t < |l| - 1
    requires l[t] + s[l[t]] == l[t + 1]
    requires Sized(Without(l, t + 1), s[l[t] := s[l[t]] + s[l[t + 1]]])
    ensures Covers(Without(l, t + 1), s[l[t] := s[l[t]] + s[l[t + 1]]], live, arena)
  {
    hide Without, InLive, InFree;
    var r, z := Without(l, t + 1), s[l[t] := s[l[t]] + s[l[t + 1]]];
    assert forall i :: 0 <= i < |l| && i != t ==> l[i] != l[t];
    hide Ordered;
    forall x: nat ensures InFree(r, z, x) <==> InFree(l, s, x) {
      MergedUnits(l, s, r, z, t, x);
    }
  }

  lemma MergedUnits(l: seq<nat>, s: Sizes, r: seq<nat>, z: Sizes, t: nat, x: nat)
    requires Sized(l, s) && Sized(r, z) && 0 < t < |l| - 1 && l[t] + s[l[t]] == l[t + 1] && r == Without(l, t + 1)
    requires l[t] in z && z[l[t]] == s[l[t]] + s[l[t + 1]] && forall i :: 0 <= i < |l| && i != t ==>
      l[i] in z && z[l[i]] == s[l[i]]
    ensures InFree(r, z, x) <==> InFree(l, s, x)
  {
    hide Without;
    if InFree(l, s, x) {
      var k :| 0 < k < |l| && l[k] <= x < l[k] + s[l[k]];
      var i := if k <= t then k else k - 1;
      assert r[i] == l[if k == t + 1 then t else k];
      assert r[i] <= x < r[i] + z[r[i]];
    }
    if InFree(r, z, x) {
      var k :| 0 < k < |r| && r[k] <= x < r[k] + z[r[k]];
      var i := if k == t then (if x < l[t + 1] then t else t + 1) else if k < t then k else k + 1;
      assert l[i] <= x < l[i] + s[l[i]];
    }
  }

  // ---------- malloc ----------

  // A free block of the right size leaves the list.
  lemma TakeExact(l: seq<nat>, s: Sizes, live: map<nat, nat>, arena: set<nat>, k: nat)
    requires Heap(l, s, live, arena, -1) && 0 < k < |l|
    ensures l[k] !in live
    ensures Heap(Without(l, k), s, live[l[k] := s[l[k]]], arena, -1)
  {
    NotLive(l, s, live, k, l[k]);
    var r, v := Without(l, k), live[l[k] := s[l[k]]];
    hide Without;
    assert Sized(r, s) && Ordered(r, s, -1);
    assert forall j :: 0 < j < |l| && j != k ==> Clear(l[k], s[l[k]], l[j], s[l[j]]);
    assert Disjoint(r, s, v);
    hide Ordered, Disjoint;
    forall x: nat ensures InFree(r, s, x) || InLive(v, x) <==> InFree(l, s, x) || InLive(live, x) {
      TakeCovers(l, s, live, r, s, v, l[k], x, k);
    }
  }

  // Units move from free entry `k` to the new block `q`.
  lemma TakeCovers(l: seq<nat>, s: Sizes, live: map<nat, nat>, r: seq<nat>, z: Sizes, v: map<nat, nat>, q: nat, x: nat,
                   k: nat)
    requires Sized(l, s) && Sized(r, z) && 0 < k < |l| && q !in live && q in v && v == live[q := v[q]]
    requires l[k] <= q && q + v[q] == l[k] + s[l[k]]
    requires if q == l[k] then r == Without(l, k) && z == s
             else r == l && z[l[k]] == q - l[k] && forall j :: 0 <= j < |l| && j != k ==> z[l[j]] == s[l[j]]
    ensures InFree(r, z, x) || InLive(v, x) <==> InFree(l, s, x) || InLive(live, x)
  {
    assert InLive(v, x) <==> InLive(live, x) || q <= x < q + v[q] by {
      if InLive(live, x) {
        var a :| a in live && a <= x < a + live[a];
        assert a in v && v[a] == live[a];
      }
      if q <= x < q + v[q] {
        assert q in v;
      }
    }
    hide InLive;
    assert InFree(l, s, x) <==> InFree(r, z, x) || q <= x < q + v[q] by {
      if InFree(l, s, x) {
        var j :| 0 < j < |l| && l[j] <= x < l[j] + s[l[j]];
        if q == l[k] {
          if j != k {
            var i := if j < k then j else j - 1;
            assert r[i] <= x < r[i] + z[r[i]];
          }
        } else if j != k || x < q {
          assert r[j] <= x < r[j] + z[r[j]];
        }
      }
      if InFree(r, z, x) {
        var j :| 0 < j < |r| && r[j] <= x < r[j] + z[r[j]];
        var i := if q == l[k] && j >= k then j + 1 else j;
        assert l[i] <= x < l[i] + s[l[i]];
      }
      if q <= x < q + v[q] {
        assert l[k] <= x < l[k] + s[l[k]];
      }
    }
  }

  // The tail of a larger block goes into use.
  function TailSizes(l: seq<nat>, s: Sizes, k: nat, n: nat): Sizes
    requires k < |l| && l[k] in s && n < s[l[k]]
  {
    s[l[k] := s[l[k]] - n][l[k] + (s[l[k]] - n) := n]
  }

  lemma TakeTail(l: seq<nat>, s: Sizes, live: map<nat, nat>, arena: set<nat>, k: nat, n: nat)
    requires Heap(l, s, live, arena, -1) && 0 < k < |l| && 0 < n < s[l[k]]
    ensures var q := l[k] + (s[l[k]] - n);
            q !in live && Heap(l, TailSizes(l, s, k, n), live[q := n], arena, -1)
  {
    var q := l[k] + (s[l[k]] - n);
    var z, v := TailSizes(l, s, k, n), live[q := n];
    NotLive(l, s, live, k, q);
    TailSize(l, s, k, n);
    TailDisjoint(l, s, live, k, n);
    hide TailSizes, Disjoint;
    assert Sized(l, z) && Ordered(l, z, -1);
    hide Ordered;
    forall x: nat ensures InFree(l, z, x) || InLive(v, x) <==> InFree(l, s, x) || InLive(live, x) {
      TakeCovers(l, s, live, l, z, v, q, x, k);
    }
  }

  // Nothing in use begins inside a free block.
  lemma NotLive(l: seq<nat>, s: Sizes, live: map<nat, nat>, k: nat, x: nat)
    requires Sized(l, s) && Disjoint(l, s, live) && 0 < k < |l| && l[k] <= x < l[k] + s[l[k]]
    ensures x !in live
  {
    forall a | a in live ensures a != x {
      assert Clear(a, live[a], l[k], s[l[k]]);
    }
  }

  lemma TailSize(l: seq<nat>, s: Sizes, k: nat, n: nat)
    requires Sized(l, s) && Ordered(l, s, -1) && 0 < k < |l| && 0 < n < s[l[k]]
    ensures var q, z := l[k] + (s[l[k]] - n), TailSizes(l, s, k, n);
            && z[l[k]] == s[l[k]] - n && q in z && z[q] == n && Sized(l, z)
            && forall j :: 0 <= j < |l| && j != k ==>
              l[j] != l[k] && l[j] != q && z[l[j]] == s[l[j]] && Clear(q, n, l[j], s[l[j]])
  {
    var q := l[k] + (s[l[k]] - n);
    forall j | 0 <= j < |l| && j != k ensures l[j] != l[k] && l[j] != q && Clear(q, n, l[j], s[l[j]]) {
    }
  }

  lemma TailDisjoint(l: seq<nat>, s: Sizes, live: map<nat, nat>, k: nat, n: nat)
    requires Sized(l, s) && Ordered(l, s, -1) && Disjoint(l, s, live) && 0 < k < |l| && 0 < n < s[l[k]]
    requires Sized(l, TailSizes(l, s, k, n))
    ensures Disjoint(l, TailSizes(l, s, k, n), live[l[k] + (s[l[k]] - n) := n])
  {
    TailSize(l, s, k, n);
    var q := l[k] + (s[l[k]] - n);
    var z, v := TailSizes(l, s, k, n), live[q := n];
    assert forall a :: a in live && a != l[k] && a != q ==> z[a] == s[a];
    hide TailSizes, Ordered;
    forall a | a in live ensures Clear(a, live[a], q, n) && a != q && a != l[k] {
      assert Clear(a, live[a], l[k], s[l[k]]);
    }
    TailClear(l, s, z, live, k, n);
  }

  lemma TailClear(l: seq<nat>, s: Sizes, z: Sizes, live: map<nat, nat>, k: nat, n: nat)
    requires Sized(l, s) && Sized(l, z) && Disjoint(l, s, live) && 0 < k < |l| && 0 < n < s[l[k]]
    requires var q := l[k] + (s[l[k]] - n);
             && z[l[k]] == s[l[k]] - n && q in z && z[q] == n
             && (forall j :: 0 <= j < |l| && j != k ==> z[l[j]] == s[l[j]] && Clear(q, n, l[j], s[l[j]]))
             && forall a :: a in live ==> Clear(a, live[a], q, n) && a in z && z[a] == s[a]
    ensures Disjoint(l, z, live[l[k] + (s[l[k]] - n) := n])
  {
    var q := l[k] + (s[l[k]] - n);
    var v := live[q := n];
    forall a, j | a in v && 0 < j < |l| ensures Clear(a, v[a], l[j], z[l[j]]) {
      if a != q {
        assert Clear(a, live[a], l[j], s[l[j]]);
      }
    }
  }

  // ---------- morecore ----------

  predicate InUnits(p: nat, n: nat, x: nat) {
    p <= x < p + n
  }

  ghost function Units(p: nat, n: nat): (u: set<nat>)
    ensures forall x :: x in u <==> InUnits(p, n, x)
  {
    set x: nat | p <= x < p + n && InUnits(p, n, x)
  }

  // Memory from sbrk is, at first, a block in use.
  lemma Granted(l: seq<nat>, s: Sizes, live: map<nat, nat>, arena: set<nat>, p: nat, n: nat)
    requires Heap(l, s, live, arena, -1) && n > 0 && p > BASE && forall x :: x in arena ==> x < p
    ensures p !in live && p !in l
    ensures Heap(l, s[p := n], live[p := n], arena + Units(p, n), -1)
  {
    hide Units;
    forall a | a in live ensures a + live[a] <= p {
      assert InLive(live, a + live[a] - 1);
    }
    forall k | 0 < k < |l| ensures l[k] + s[l[k]] <= p {
      assert InFree(l, s, l[k] + s[l[k]] - 1);
    }
    var z, v := s[p := n], live[p := n];
    assert forall k :: 0 <= k < |l| ==> z[l[k]] == s[l[k]];
    assert Sized(l, z) && Ordered(l, z, -1) && Disjoint(l, z, v);
    hide Ordered, Disjoint;
    forall x: nat ensures x in arena + Units(p, n) <==> InFree(l, z, x) || InLive(v, x) {
      assert InFree(l, z, x) <==> InFree(l, s, x);
      hide InFree;
      LiveGrows(live, p, n, x);
    }
  }

  lemma LiveGrows(live: map<nat, nat>, p: nat, n: nat, x: nat)
    requires p !in live
    ensures InLive(live[p := n], x) <==> InLive(live, x) || InUnits(p, n, x)
  {
    if InLive(live, x) {
      var a :| a in live && a <= x < a + live[a];
      assert a in live[p := n];
    }
    if InUnits(p, n, x) {
      assert p in live[p := n];
    }
  }

  // ---------- The ring ----------

  predicate Distinct(l: seq<nat>) {
    forall j, k :: 0 <= j < k < |l| ==> l[j] != l[k]
  }

  lemma HeapDistinct(l: seq<nat>, s: Sizes, live: map<nat, nat>, arena: set<nat>, loose: int)
    requires Heap(l, s, live, arena, loose)
    ensures Sized(l, s) && Distinct(l) && |l| > 0 && l[0] == BASE && forall k :: 0 <= k < |l| ==> l[k] >= BASE
    ensures forall k :: 0 <= k < |l| ==> l[k] in s && l[k] !in live
    ensures s[BASE] == 0 && forall k :: 0 < k < |l| ==> s[l[k]] > 0
    ensures forall a :: a in live ==> a in s && s[a] == live[a] > 0
  {
    hide Covers;
    forall k | 0 <= k < |l| ensures l[k] !in live {
      assert l[k] in live && k > 0 ==> Clear(l[k], live[l[k]], l[k], s[l[k]]);
    }
  }

  // prevp->s.ptr = p->s.ptr
  lemma RingRemove(l: seq<nat>, ptr: map<nat, nat>, k: nat)
    requires Ring(l, ptr) && Distinct(l) && 0 < k < |l|
    ensures l[k] in ptr && Ring(Without(l, k), ptr[l[k - 1] := ptr[l[k]]])
  {
    hide Without;
    assert Links(l, ptr, k);
    var r, q := Without(l, k), ptr[l[k - 1] := ptr[l[k]]];
    forall j | 0 <= j < |r| ensures Links(r, q, j) {
      assert Links(l, ptr, if j < k then j else j + 1);
    }
  }

  // bp->s.ptr and then p->s.ptr, as free sets them.
  lemma RingInsert(list: seq<nat>, size: Sizes, ptr: map<nat, nat>, bp: nat, t: nat)
    requires Ring(list, ptr) && Distinct(list) && t < |list| && bp in size && bp !in list
    ensures list[t] in ptr && (t + 1 < |list| ==> list[t + 1] in ptr)
    ensures var next := if TouchesNext(list, size, bp, t) then ptr[list[t + 1]] else ptr[list[t]];
            Ring(Linked(list, size, bp, t), ptr[bp := next][list[t] := bp])
  {
    var m := TouchesNext(list, size, bp, t);
    assert Links(list, ptr, t) && (t + 1 < |list| ==> Links(list, ptr, t + 1));
    var next := if m then ptr[list[t + 1]] else ptr[list[t]];
    var l, q := Linked(list, size, bp, t), ptr[bp := next][list[t] := bp];
    LinkedAt(list, size, bp, t);
    hide Linked;
    forall j | 0 <= j < |l| ensures Links(l, q, j) {
      if j < t {
        assert Links(list, ptr, j) && list[j] != bp;
      } else if j > t + 1 {
        var i := if m then j else j - 1;
        assert Links(list, ptr, i) && l[j] == list[i] && list[i] != bp;
      }
    }
  }

  lemma LinkedAt(list: seq<nat>, size: Sizes, bp: nat, t: nat)
    requires t < |list| && bp in size
    ensures var l, m := Linked(list, size, bp, t), TouchesNext(list, size, bp, t);
            && |l| == (if m then |list| else |list| + 1) && t + 1 < |l| && l[t + 1] == bp && (m ==> t + 1 < |list|)
            && (forall j :: 0 <= j <= t ==> l[j] == list[j])
            && forall j :: t + 1 < j < |l| ==> l[j] == list[if m then j else j - 1]
  {
  }
}
