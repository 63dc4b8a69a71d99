/**
 The redo log of labo2/kernel/log.c on the buffers of labo2/kernel/bio.c: the buffers that are
 pinned are those of the open transaction, and the disk under the cache goes through the same
 writes as the disk of RedoLog.
 */
module CachedLog {
  import opened BufferCache
  import RedoLog

  const DEV: nat := 1

  function K(b: nat): Key {
    Key(DEV, b)
  }

  // ---------- Cache and log together ----------

  // The buffers in `held` are locked, and no process waits for a buffer or is about to drop one.
  ghost predicate Locks(s: seq<Buf>, g: Ghost, held: set<nat>)
    requires |s| == NBUF + 1
  {
    && |g.waiting| == |g.leaving| == NBUF && (forall c :: c in held ==> c < NBUF)
    && forall c :: 0 <= c < NBUF ==> (s[c].locked <==> c in held) && g.waiting[c] == 0 && g.leaving[c] == 0
  }

  // The pinned buffers are those of the blocks in `list`.
  ghost predicate Pins(s: seq<Buf>, g: Ghost, list: seq<int>)
    requires |s| == NBUF + 1
  {
    && |g.pinned| == NBUF
    && (forall c :: 0 <= c < NBUF && g.pinned[c] ==> s[c].key.dev == DEV && s[c].key.blockno in list)
    && forall i :: 0 <= i < |list| ==> list[i] >= 0 && PinnedAt(s, g, list[i])
  }

  ghost predicate PinnedAt(s: seq<Buf>, g: Ghost, b: int)
    requires |s| == NBUF + 1 && |g.pinned| == NBUF
  {
    exists c :: 0 <= c < NBUF && g.pinned[c] && s[c].key.dev == DEV && s[c].key.blockno == b
  }

  // `d` is the disk, and `l` what bread returns.
  ghost predicate Shows(g: Ghost, disk: Store, d: RedoLog.Image, l: RedoLog.Image) {
    |d| == |l| && forall b :: 0 <= b < |d| ==> At(disk, K(b)) == d[b] && At(g.latest, K(b)) == l[b]
  }

  ghost predicate Tied(s: seq<Buf>, g: Ghost, disk: Store, held: set<nat>, list: seq<int>, d: RedoLog.Image,
                       l: RedoLog.Image)
  {
    Inv(s, g, disk) && Locks(s, g, held) && Pins(s, g, list) && Shows(g, disk, d, l)
  }

  // Where binit has left every buffer unused, nothing is held or pinned.
  lemma TiedAtBoot(s: seq<Buf>, g: Ghost, disk: Store, d: RedoLog.Image)
    requires Inv(s, g, disk) && g.latest == disk && forall b :: 0 <= b < |d| ==> At(disk, K(b)) == d[b]
    requires forall c :: 0 <= c < NBUF ==> s[c].refcnt == 0
    ensures Tied(s, g, disk, {}, [], d, d)
  {
    hide Linked, Lru, OneEach, Coherent;
  }

  // ---------- Buffers enough ----------

  function PinnedSet(pinned: seq<bool>): set<nat> {
    set c: nat | c < |pinned| && pinned[c]
  }

  lemma {:induction false} FewPinned(s: seq<Buf>, p: set<nat>, list: seq<int>)
    requires |s| == NBUF + 1 && OneEach(s)
    requires forall c :: c in p ==> c < NBUF && s[c].key.dev == DEV && s[c].key.blockno in list
    ensures |p| <= |list|
    decreases |list|
  {
    if p != {} {
      var c :| c in p;
      var i :| 0 <= i < |list| && list[i] == s[c].key.blockno;
      var rest := list[..i] + list[i + 1..];
      forall e | e in p - {c}
        ensures s[e].key.blockno in rest
      {
        var j :| 0 <= j < |list| && list[j] == s[e].key.blockno;
        assert s[e].key != s[c].key;
        assert rest[if j < i then j else j - 1] == list[j];
      }
      FewPinned(s, p - {c}, rest);
    }
  }

  lemma {:induction false} AllBelow(p: set<nat>, n: nat)
    requires forall c: nat :: c < n ==> c in p
    ensures |p| >= n
  {
    if n > 0 {
      AllBelow(p - {n - 1}, n - 1);
    }
  }

  // With fewer blocks pinned and buffers held than there are buffers, one is unreferenced.
  lemma SomeUnused(s: seq<Buf>, g: Ghost, disk: Store, held: set<nat>, list: seq<int>, d: RedoLog.Image,
                   l: RedoLog.Image)
    requires Tied(s, g, disk, held, list, d, l) && |list| + |held| < NBUF
    ensures exists c :: 0 <= c < NBUF && s[c].refcnt == 0
  {
    var p := PinnedSet(g.pinned);
    hide Linked, Lru, Coherent, Shows;
    FewPinned(s, p, list);
    assert |p + held| <= |p| + |held|;
    if forall c: nat :: c < NBUF ==> c in p + held {
      AllBelow(p + held, NBUF);
    }
    var c: nat :| c < NBUF && c !in p + held;
    assert s[c].refcnt == 0;
  }

  // ---------- One step at a time ----------

  lemma TiedShape(s: seq<Buf>, g: Ghost, disk: Store, held: set<nat>, list: seq<int>, d: RedoLog.Image,
                  l: RedoLog.Image, b: nat)
    requires Tied(s, g, disk, held, list, d, l) && b < |d|
    ensures |s| == NBUF + 1 && |d| == |l| && At(g.latest, K(b)) == l[b] && At(disk, K(b)) == d[b]
    ensures |g.pinned| == |g.dirty| == NBUF && forall c :: c in held ==> c < NBUF && s[c].locked
  {
    hide Linked, Lru, OneEach, Coherent, Counted;
  }

  // A buffer for block `b` is there, or one can be taken.
  ghost predicate Room(s: seq<Buf>, held: set<nat>, list: seq<int>, b: nat)
    requires |s| == NBUF + 1
  {
    b in list || |list| + |held| < NBUF
  }

  // Nobody holds block `b`.
  ghost predicate Loose(s: seq<Buf>, held: set<nat>, b: nat)
    requires |s| == NBUF + 1
  {
    forall c :: c in held && c < NBUF ==> s[c].key != K(b)
  }

  lemma CanTake(s: seq<Buf>, g: Ghost, disk: Store, held: set<nat>, list: seq<int>, d: RedoLog.Image,
                l: RedoLog.Image, b: nat)
    requires Tied(s, g, disk, held, list, d, l) && Room(s, held, list, b) && Loose(s, held, b)
    ensures Inv(s, g, disk) && exists c :: 0 <= c < NBUF && (s[c].key == K(b) || s[c].refcnt == 0)
    ensures forall c :: 0 <= c < NBUF && s[c].key == K(b) ==> !s[c].locked
  {
    hide Shows, Linked, Lru, Counted, OneEach, Coherent;
    if b in list {
      var i :| 0 <= i < |list| && list[i] == b;
      assert PinnedAt(s, g, list[i]);
      var c :| 0 <= c < NBUF && g.pinned[c] && s[c].key.dev == DEV && s[c].key.blockno == b;
      assert s[c].key == K(b);
    } else {
      hide Tied;
      SomeUnused(s, g, disk, held, list, d, l);
    }
  }

  // Only the blocks of pinned buffers matter.
  lemma PinsFrame(s: seq<Buf>, t: seq<Buf>, g: Ghost, h: Ghost, list: seq<int>)
    requires |s| == |t| == NBUF + 1 && Pins(s, g, list) && h.pinned == g.pinned
    requires forall c :: 0 <= c < NBUF && g.pinned[c] ==> t[c].key == s[c].key
    ensures Pins(t, h, list)
  {
    forall i | 0 <= i < |list|
      ensures PinnedAt(t, h, list[i])
    {
      assert PinnedAt(s, g, list[i]);
      var c :| 0 <= c < NBUF && g.pinned[c] && s[c].key.dev == DEV && s[c].key.blockno == list[i];
      assert t[c].key == s[c].key;
    }
  }

  lemma Taken(s: seq<Buf>, g: Ghost, disk: Store, held: set<nat>, list: seq<int>, d: RedoLog.Image, l: RedoLog.Image,
              t: seq<Buf>, c: nat, b: nat)
    requires Tied(s, g, disk, held, list, d, l) && Inv(t, g, disk) && c < NBUF && t == s[c := t[c]]
    requires t[c].key == K(b) && t[c].locked && b < |d| && (s[c].key == K(b) || !g.pinned[c])
    ensures Tied(t, g, disk, held + {c}, list, d, l) && At(g.latest, K(b)) == l[b]
  {
    hide Linked, Lru, Counted, OneEach, Coherent, Pins;
    PinsFrame(s, t, g, g, list);
  }

  // The buffer was free, or had the block.
  lemma WasFree(s: seq<Buf>, g: Ghost, disk: Store, held: set<nat>, list: seq<int>, d: RedoLog.Image, l: RedoLog.Image,
                c: nat, b: nat)
    requires Tied(s, g, disk, held, list, d, l) && Loose(s, held, b) && c < NBUF
             && (s[c].key == K(b) || s[c].refcnt == 0)
    ensures c !in held && |g.pinned| == |g.dirty| == NBUF && (s[c].key == K(b) || !g.pinned[c])
    ensures g.dirty[c] ==> g.pinned[c]
  {
    hide Linked, Lru, OneEach, Shows, Pins;
  }

  // bread
  method Take(cache: BCache, b: nat, ghost held: set<nat>, ghost list: seq<int>, ghost d: RedoLog.Image,
              ghost l: RedoLog.Image)
    returns (c: nat)
    requires cache.Valid() && Tied(cache.buf[..], cache.g, cache.disk, held, list, d, l)
    requires b < |d| && Room(cache.buf[..], held, list, b) && Loose(cache.buf[..], held, b)
    modifies cache.buf, cache`g
    ensures cache.Valid() && Tied(cache.buf[..], cache.g, cache.disk, held + {c}, list, d, l)
    ensures c < NBUF && c !in held && cache.buf[c].key == K(b) && cache.buf[c].valid && |d| == |l|
            && cache.buf[c].data == l[b]
    ensures forall e :: e in held && e < NBUF ==> cache.buf[e] == old(cache.buf[e])
    ensures cache.g == old(cache.g) && |cache.g.dirty| == |cache.g.pinned| == NBUF
    ensures cache.g.dirty[c] ==> cache.g.pinned[c]
  {
    hide Inv, Tied, Locks, Pins, Shows, Room, Loose;
    ghost var s, g := cache.buf[..], cache.g;
    CanTake(s, g, cache.disk, held, list, d, l, b);
    assert forall e :: 0 <= e < NBUF ==> s[e] == cache.buf[e];
    c := cache.Bread(K(b));
    WasFree(s, g, cache.disk, held, list, d, l, c, b);
    assert s[c := cache.buf[c]] == cache.buf[..];
    TiedShape(s, g, cache.disk, held, list, d, l, b);
    Taken(s, g, cache.disk, held, list, d, l, cache.buf[..], c, b);
  }

  lemma PutTied(s: seq<Buf>, g: Ghost, disk: Store, held: set<nat>, list: seq<int>, d: RedoLog.Image, l: RedoLog.Image,
                t: seq<Buf>, h: Ghost, c: nat, b: nat, data: RedoLog.Block)
    requires Tied(s, g, disk, held, list, d, l) && b < |d| && c < NBUF && Inv(t, h, disk) && |g.dirty| == NBUF
    requires t == s[c := s[c].(data := data)] && h == g.(dirty := g.dirty[c := true], latest := g.latest[K(b) := data])
    ensures |l| == |d| && Tied(t, h, disk, held, list, d, l[b := data])
  {
    hide Linked, Lru, Counted, OneEach, Coherent, Pins;
    PinsFrame(s, t, g, h, list);
  }

  // memmove into the buffer
  method Put(cache: BCache, c: nat, b: nat, data: RedoLog.Block, ghost held: set<nat>, ghost list: seq<int>,
             ghost d: RedoLog.Image, ghost l: RedoLog.Image)
    requires cache.Valid() && Tied(cache.buf[..], cache.g, cache.disk, held, list, d, l)
    requires c in held && c < NBUF && b < |d| == |l| && cache.buf[c].key == K(b) && cache.buf[c].valid
    modifies cache.buf, cache`g
    ensures cache.Valid() && Tied(cache.buf[..], cache.g, cache.disk, held, list, d, l[b := data])
    ensures cache.buf[..] == old(cache.buf[..])[c := old(cache.buf[c]).(data := data)]
    ensures |cache.g.dirty| == |old(cache.g).dirty| == NBUF && cache.g.pinned == old(cache.g).pinned
    ensures forall e :: 0 <= e < NBUF && e != c ==> cache.g.dirty[e] == old(cache.g).dirty[e]
  {
    hide Inv, Tied, Locks, Pins, Shows;
    ghost var s, g := cache.buf[..], cache.g;
    TiedShape(s, g, cache.disk, held, list, d, l, b);
    cache.Modify(c, data);
    PutTied(s, g, cache.disk, held, list, d, l, cache.buf[..], cache.g, c, b, data);
  }

  lemma WriteTied(s: seq<Buf>, g: Ghost, disk: Store, held: set<nat>, list: seq<int>, d: RedoLog.Image,
                  l: RedoLog.Image, h: Ghost, b: nat, c: nat, data: RedoLog.Block)
    requires Tied(s, g, disk, held, list, d, l) && b < |d| && c < NBUF && |g.dirty| == NBUF
             && Inv(s, h, disk[K(b) := data])
    requires h == g.(dirty := g.dirty[c := false])
    ensures Tied(s, h, disk[K(b) := data], held, list, d[b := data], l)
  {
    hide Linked, Lru, Counted, OneEach, Coherent, Pins;
    PinsFrame(s, s, g, h, list);
  }

  // bwrite
  method Write(cache: BCache, c: nat, b: nat, data: RedoLog.Block, ghost held: set<nat>, ghost list: seq<int>,
               ghost d: RedoLog.Image, ghost l: RedoLog.Image)
    requires cache.Valid() && Tied(cache.buf[..], cache.g, cache.disk, held, list, d, l)
    requires c in held && c < NBUF && b < |d| && cache.buf[c].key == K(b) && cache.buf[c].valid
             && cache.buf[c].data == data
    modifies cache`disk, cache`g, cache`writes
    ensures cache.Valid() && Tied(cache.buf[..], cache.g, cache.disk, held, list, d[b := data], l)
    ensures |cache.g.dirty| == |old(cache.g).dirty| == NBUF && cache.g.pinned == old(cache.g).pinned
    ensures forall e :: 0 <= e < NBUF && e != c ==> cache.g.dirty[e] == old(cache.g).dirty[e]
    ensures !cache.g.dirty[c] && cache.writes == old(cache.writes) + [cache.disk]
  {
    hide Inv, Tied, Locks, Pins, Shows;
    ghost var s, g, disk := cache.buf[..], cache.g, cache.disk;
    TiedShape(s, g, cache.disk, held, list, d, l, b);
    cache.Bwrite(c);
    WriteTied(s, g, disk, held, list, d, l, cache.g, b, c, data);
  }

  lemma GiveTied(s: seq<Buf>, g: Ghost, disk: Store, held: set<nat>, list: seq<int>, d: RedoLog.Image, l: RedoLog.Image,
                 t: seq<Buf>, h: Ghost, c: nat)
    requires Tied(s, g, disk, held, list, d, l) && c in held && Inv(t, h, disk) && c < NBUF
    requires |s| == NBUF + 1 && SameButLinks(s[c := s[c].(locked := false, refcnt := t[c].refcnt)], t)
    requires h == g.(leaving := h.leaving, order := h.order, released := h.released, clock := h.clock)
             && h.leaving == g.leaving
    ensures Tied(t, h, disk, held - {c}, list, d, l)
  {
    hide Linked, Lru, Counted, OneEach, Coherent, Pins;
    PinsFrame(s, t, g, h, list);
  }

  // brelse
  method Give(cache: BCache, c: nat, ghost held: set<nat>, ghost list: seq<int>, ghost d: RedoLog.Image,
              ghost l: RedoLog.Image)
    requires cache.Valid() && Tied(cache.buf[..], cache.g, cache.disk, held, list, d, l) && c in held && c < NBUF
    requires |cache.g.dirty| == |cache.g.pinned| == NBUF && (cache.g.dirty[c] ==> cache.g.pinned[c])
    modifies cache.buf, cache`g
    ensures cache.Valid() && Tied(cache.buf[..], cache.g, cache.disk, held - {c}, list, d, l)
    ensures cache.g.dirty == old(cache.g).dirty && cache.g.pinned == old(cache.g).pinned
    ensures forall e :: 0 <= e < NBUF && e != c ==> SameCore(old(cache.buf[e]), cache.buf[e])
  {
    hide Inv, Tied, Locks, Pins, Shows;
    ghost var s, g := cache.buf[..], cache.g;
    HeldShape(s, g, cache.disk, held, list, d, l, c);
    cache.ReleaseSleep(c);
    cache.DropReference(c);
    assert cache.g.leaving == g.leaving;
    GiveTied(s, g, cache.disk, held, list, d, l, cache.buf[..], cache.g, c);
  }

  lemma HeldShape(s: seq<Buf>, g: Ghost, disk: Store, held: set<nat>, list: seq<int>, d: RedoLog.Image,
                  l: RedoLog.Image, c: nat)
    requires Tied(s, g, disk, held, list, d, l) && c in held
    ensures c < NBUF && |s| == NBUF + 1 && s[c].locked && |g.leaving| == NBUF && g.leaving[c] == 0
  {
    hide Linked, Lru, Counted, OneEach, Coherent, Shows, Pins;
  }

  // ---------- Pins ----------

  // The buffer of a block of the transaction is pinned.
  lemma IsPinned(s: seq<Buf>, g: Ghost, disk: Store, held: set<nat>, list: seq<int>, d: RedoLog.Image, l: RedoLog.Image,
                 c: nat, b: nat)
    requires Tied(s, g, disk, held, list, d, l) && c < NBUF && |s| == NBUF + 1 && s[c].key == K(b)
    ensures |g.pinned| == NBUF && (g.pinned[c] <==> b in list)
  {
    hide Linked, Lru, Counted, Coherent, Shows, Locks;
    if b in list {
      var i :| 0 <= i < |list| && list[i] == b;
      assert PinnedAt(s, g, list[i]);
      var e :| 0 <= e < NBUF && g.pinned[e] && s[e].key.dev == DEV && s[e].key.blockno == b;
      assert s[e].key == K(b);
    }
  }

  lemma PinTied(s: seq<Buf>, g: Ghost, disk: Store, held: set<nat>, list: seq<int>, d: RedoLog.Image, l: RedoLog.Image,
                t: seq<Buf>, h: Ghost, c: nat, b: nat)
    requires Tied(s, g, disk, held, list, d, l) && c < NBUF && |g.pinned| == NBUF && |s| == NBUF + 1 && s[c].key == K(b)
    requires Inv(t, h, disk) && t == s[c := s[c].(refcnt := t[c].refcnt)] && h == g.(pinned := g.pinned[c := true])
    ensures Tied(t, h, disk, held, list + [b], d, l)
  {
    hide Linked, Lru, Counted, OneEach, Coherent;
    forall i | 0 <= i < |list + [b]|
      ensures PinnedAt(t, h, (list + [b])[i])
    {
      if i < |list| {
        assert PinnedAt(s, g, list[i]);
        var e :| 0 <= e < NBUF && g.pinned[e] && s[e].key.dev == DEV && s[e].key.blockno == list[i];
        assert h.pinned[e] && t[e].key == s[e].key;
      } else {
        assert h.pinned[c] && t[c].key == K(b);
      }
    }
  }

  // bpin
  method Pin(cache: BCache, c: nat, b: nat, ghost held: set<nat>, ghost list: seq<int>, ghost d: RedoLog.Image,
             ghost l: RedoLog.Image)
    requires cache.Valid() && Tied(cache.buf[..], cache.g, cache.disk, held, list, d, l)
    requires c in held && c < NBUF && cache.buf[c].key == K(b) && b !in list
    modifies cache.buf, cache`g
    ensures cache.Valid() && Tied(cache.buf[..], cache.g, cache.disk, held, list + [b], d, l)
    ensures |cache.g.pinned| == |cache.g.dirty| == NBUF && cache.g.pinned[c]
  {
    hide Inv, Tied, Locks, Pins, Shows;
    ghost var s, g := cache.buf[..], cache.g;
    HeldShape(s, g, cache.disk, held, list, d, l, c);
    IsPinned(s, g, cache.disk, held, list, d, l, c, b);
    cache.Bpin(c);
    PinTied(s, g, cache.disk, held, list, d, l, cache.buf[..], cache.g, c, b);
    Sizes(cache.buf[..], cache.g, cache.disk);
  }

  lemma Sizes(s: seq<Buf>, g: Ghost, disk: Store)
    requires Inv(s, g, disk)
    ensures |s| == NBUF + 1 && |g.pinned| == |g.dirty| == NBUF
  {
    hide Linked, Lru, Counted, OneEach, Coherent;
  }

  lemma FirstUnpinned(s: seq<Buf>, g: Ghost, t: seq<Buf>, h: Ghost, list: seq<int>, c: nat)
    requires list != [] && RedoLog.Distinct(list) && |s| == NBUF + 1 && OneEach(s) && Pins(s, g, list)
    requires c < NBUF && s[c].key == K(list[0]) && h.pinned == g.pinned[c := false]
    requires |t| == |s| && forall e :: 0 <= e < NBUF ==> t[e].key == s[e].key
    ensures Pins(t, h, list[1..])
  {
    forall e | 0 <= e < NBUF && h.pinned[e]
      ensures t[e].key.dev == DEV && t[e].key.blockno in list[1..]
    {
      assert s[e].key.blockno in list && s[e].key != s[c].key;
    }
    hide OneEach;
    forall i | 0 <= i < |list[1..]|
      ensures PinnedAt(t, h, list[1..][i])
    {
      assert list[1..][i] == list[i + 1] != list[0];
      assert PinnedAt(s, g, list[i + 1]);
      var e :| 0 <= e < NBUF && g.pinned[e] && s[e].key.dev == DEV && s[e].key.blockno == list[i + 1];
      assert h.pinned[e] && t[e].key == s[e].key;
    }
  }

  lemma UnpinTied(s: seq<Buf>, g: Ghost, disk: Store, held: set<nat>, list: seq<int>, d: RedoLog.Image,
                  l: RedoLog.Image, t: seq<Buf>, h: Ghost, c: nat)
    requires list != [] && RedoLog.Distinct(list) && list[0] >= 0
    requires Tied(s, g, disk, held, list, d, l) && c < NBUF && |g.pinned| == NBUF && |s| == NBUF + 1
    requires s[c].key == K(list[0]) && Inv(t, h, disk) && h == g.(pinned := g.pinned[c := false])
    requires t == s[c := s[c].(refcnt := t[c].refcnt)]
    ensures Tied(t, h, disk, held, list[1..], d, l)
  {
    hide Linked, Lru, Counted, Coherent, OneEach, Pins, RedoLog.Distinct;
    FirstUnpinned(s, g, t, h, list, c);
  }

  // bunpin
  method Unpin(cache: BCache, c: nat, ghost held: set<nat>, ghost list: seq<int>, ghost d: RedoLog.Image,
               ghost l: RedoLog.Image)
    requires cache.Valid() && Tied(cache.buf[..], cache.g, cache.disk, held, list, d, l)
    requires c in held && c < NBUF && list != [] && RedoLog.Distinct(list) && list[0] >= 0
             && cache.buf[c].key == K(list[0])
    requires |cache.g.dirty| == NBUF && !cache.g.dirty[c]
    modifies cache.buf, cache`g
    ensures cache.Valid() && Tied(cache.buf[..], cache.g, cache.disk, held, list[1..], d, l)
    ensures cache.g.dirty == old(cache.g).dirty && |cache.g.pinned| == |old(cache.g).pinned| == NBUF
    ensures forall e :: 0 <= e < NBUF && e != c ==> cache.g.pinned[e] == old(cache.g).pinned[e]
  {
    hide Inv, Tied, Locks, Pins, Shows;
    ghost var s, g := cache.buf[..], cache.g;
    HeldShape(s, g, cache.disk, held, list, d, l, c);
    IsPinned(s, g, cache.disk, held, list, d, l, c, list[0]);
    cache.Bunpin(c);
    UnpinTied(s, g, cache.disk, held, list, d, l, cache.buf[..], cache.g, c);
    Sizes(cache.buf[..], cache.g, cache.disk);
  }

  // ---------- commit ----------

  // The facts that one pass of write_log needs.
  lemma CopyNext(g: RedoLog.Geometry, d: RedoLog.Image, cached: RedoLog.Image, list: seq<int>, k: nat)
    requires g.Fits(d) && RedoLog.HomeBlocks(g, |d|, list) && |cached| == |d| && k < |list|
    ensures 0 <= list[k] < |d| && g.start + 1 + k < |d| && list[k] != g.start + 1 + k && g.start + 1 + k !in list
    ensures RedoLog.Copied(g, cached, cached, list, k)[list[k]] == cached[list[k]]
    ensures RedoLog.Copied(g, d, cached, list, k + 1) ==
            RedoLog.Copied(g, d, cached, list, k)[g.start + 1 + k := cached[list[k]]]
    ensures RedoLog.Copied(g, cached, cached, list, k + 1) ==
            RedoLog.Copied(g, cached, cached, list, k)[g.start + 1 + k := cached[list[k]]]
  {
  }

  lemma LooseNone(s: seq<Buf>, b: nat)
    requires |s| == NBUF + 1
    ensures Loose(s, {}, b)
  {
  }

  lemma LooseOne(s: seq<Buf>, c: nat, a: nat, b: nat)
    requires |s| == NBUF + 1 && c < NBUF && s[c].key == K(a) && a != b
    ensures Loose(s, {} + {c}, b)
  {
  }

  // bread of block `a`, which may have to take a buffer, and then of block `b` of the transaction.
  method TakeTwo(cache: BCache, a: nat, b: nat, ghost list: seq<int>, ghost d: RedoLog.Image, ghost l: RedoLog.Image)
    returns (x: nat, y: nat)
    requires cache.Valid() && Tied(cache.buf[..], cache.g, cache.disk, {}, list, d, l)
    requires a < |d| && b < |d| && a != b && b in list && |list| < NBUF
    modifies cache.buf, cache`g
    ensures cache.Valid() && x != y && x < NBUF && y < NBUF && |d| == |l|
    ensures Tied(cache.buf[..], cache.g, cache.disk, {} + {x} + {y}, list, d, l)
    ensures cache.buf[x].key == K(a) && cache.buf[x].valid && cache.buf[x].data == l[a]
    ensures cache.buf[y].key == K(b) && cache.buf[y].valid && cache.buf[y].data == l[b]
    ensures |cache.g.dirty| == |cache.g.pinned| == NBUF && cache.g.pinned[y]
    ensures cache.g.dirty[x] ==> cache.g.pinned[x]
  {
    hide Inv, Tied, Loose;
    TiedShape(cache.buf[..], cache.g, cache.disk, {}, list, d, l, a);
    LooseNone(cache.buf[..], a);
    x := Take(cache, a, {}, list, d, l);
    LooseOne(cache.buf[..], x, a, b);
    y := Take(cache, b, {} + {x}, list, d, l);
    IsPinned(cache.buf[..], cache.g, cache.disk, {} + {x} + {y}, list, d, l, y, b);
  }

  // One pass of write_log.
  method CopyToLog(cache: BCache, a: nat, b: nat, ghost list: seq<int>, ghost d: RedoLog.Image, ghost l: RedoLog.Image)
    requires cache.Valid() && Tied(cache.buf[..], cache.g, cache.disk, {}, list, d, l)
    requires a < |d| == |l| && b < |d| && a != b && b in list && |list| < NBUF
    modifies cache.buf, cache`g, cache`disk, cache`writes
    ensures cache.Valid() && Tied(cache.buf[..], cache.g, cache.disk, {}, list, d[a := l[b]], l[a := l[b]])
    ensures cache.writes == old(cache.writes) + [cache.disk]
  {
    hide Inv, Tied, Loose;
    var to, from := TakeTwo(cache, a, b, list, d, l);
    ghost var h := {} + {to} + {from};
    Put(cache, to, a, cache.buf[from].data, h, list, d, l);
    Write(cache, to, a, cache.buf[to].data, h, list, d, l[a := l[b]]);
    IsPinned(cache.buf[..], cache.g, cache.disk, h, list, d[a := l[b]], l[a := l[b]], from, b);
    Sizes(cache.buf[..], cache.g, cache.disk);
    Give(cache, from, h, list, d[a := l[b]], l[a := l[b]]);
    assert h - {from} == {to} && {to} - {to} == {};
    Give(cache, to, {to}, list, d[a := l[b]], l[a := l[b]]);
  }

  // ---------- The disks gone through ----------

  // From the `from`-th on, the disks `stores` are those of `w`.
  ghost predicate Traces(stores: seq<Store>, from: nat, w: seq<RedoLog.Image>) {
    |stores| == from + |w| && forall i :: 0 <= i < |w| ==> ShowsDisk(stores[from + i], w[i])
  }

  ghost predicate ShowsDisk(disk: Store, d: RedoLog.Image) {
    forall b :: 0 <= b < |d| ==> At(disk, K(b)) == d[b]
  }

  lemma TraceNext(s: seq<Buf>, g: Ghost, disk: Store, held: set<nat>, list: seq<int>, d: RedoLog.Image,
                  l: RedoLog.Image, stores: seq<Store>, from: nat, w: seq<RedoLog.Image>)
    requires Tied(s, g, disk, held, list, d, l) && Traces(stores, from, w)
    ensures Traces(stores + [disk], from, w + [d])
  {
    hide Inv, Locks, Pins;
    assert ShowsDisk(disk, d);
    hide ShowsDisk, Tied;
  }

  /** write_log over the cache. */
  method WriteLog(cache: BCache, g: RedoLog.Geometry, list: seq<int>, ghost d: RedoLog.Image, ghost l: RedoLog.Image,
                  ghost from: nat)
    requires cache.Valid() && Tied(cache.buf[..], cache.g, cache.disk, {}, list, d, l) && from == |cache.writes|
    requires g.Fits(d) && RedoLog.HomeBlocks(g, |d|, list) && |l| == |d| && |list| < NBUF
    modifies cache.buf, cache`g, cache`disk, cache`writes
    ensures cache.Valid()
    ensures Tied(cache.buf[..], cache.g, cache.disk, {}, list, RedoLog.Copied(g, d, l, list, |list|),
            RedoLog.Copied(g, l, l, list, |list|))
    ensures Traces(cache.writes, from, RedoLog.CopyWrites(g, d, l, list, |list|))
  {
    hide Inv, Tied, Loose, Traces, RedoLog.Copied, RedoLog.HomeBlocks;
    var k := 0;
    CopyNothing(g, d, l, list);
    TracesNone(cache.writes);
    while k < |list|
      invariant k <= |list| && cache.Valid()
      invariant Tied(cache.buf[..], cache.g, cache.disk, {}, list, RedoLog.Copied(g, d, l, list, k),
                RedoLog.Copied(g, l, l, list, k))
      invariant Traces(cache.writes, from, RedoLog.CopyWrites(g, d, l, list, k))
    {
      CopyNext(g, d, l, list, k);
      ghost var stores := cache.writes;
      CopyToLog(cache, g.start + k + 1, list[k], list, RedoLog.Copied(g, d, l, list, k),
        RedoLog.Copied(g, l, l, list, k));
      k := k + 1;
      TraceNext(cache.buf[..], cache.g, cache.disk, {}, list, RedoLog.Copied(g, d, l, list, k),
        RedoLog.Copied(g, l, l, list, k),
                stores, from, RedoLog.CopyWrites(g, d, l, list, k - 1));
    }
  }

  lemma TracesNone(stores: seq<Store>)
    ensures Traces(stores, |stores|, [])
  {
  }

  lemma CopyNothing(g: RedoLog.Geometry, d: RedoLog.Image, cached: RedoLog.Image, list: seq<int>)
    requires g.Fits(d) && RedoLog.HomeBlocks(g, |d|, list) && |cached| == |d|
    ensures RedoLog.Copied(g, d, cached, list, 0) == d && RedoLog.Copied(g, cached, cached, list, 0) == cached
  {
  }

  /** write_head over the cache. */
  method WriteHead(cache: BCache, g: RedoLog.Geometry, list: seq<int>, ghost pinned: seq<int>, ghost d: RedoLog.Image,
                   ghost l: RedoLog.Image, ghost from: nat, ghost w: seq<RedoLog.Image>)
    requires Traces(cache.writes, from, w)
    requires cache.Valid() && Tied(cache.buf[..], cache.g, cache.disk, {}, pinned, d, l)
    requires g.start < |d| == |l| && |list| <= RedoLog.LOGSIZE && |pinned| < NBUF
    modifies cache.buf, cache`g, cache`disk, cache`writes
    ensures cache.Valid()
    ensures var x := RedoLog.Header(l[g.start], list);
            && Tied(cache.buf[..], cache.g, cache.disk, {}, pinned, d[g.start := x], l[g.start := x])
            && Traces(cache.writes, from, w + [d[g.start := x]])
  {
    hide Inv, Tied, Loose, RedoLog.Header;
    TiedShape(cache.buf[..], cache.g, cache.disk, {}, pinned, d, l, g.start);
    LooseNone(cache.buf[..], g.start);
    var b := Take(cache, g.start, {}, pinned, d, l);
    ghost var h := {} + {b};
    var was: RedoLog.Block := cache.buf[b].data;
    var x := RedoLog.Header(was, list);
    Put(cache, b, g.start, x, h, pinned, d, l);
    Write(cache, b, g.start, x, h, pinned, d, l[g.start := x]);
    Sizes(cache.buf[..], cache.g, cache.disk);
    assert h - {b} == {};
    Give(cache, b, h, pinned, d[g.start := x], l[g.start := x]);
    TraceNext(cache.buf[..], cache.g, cache.disk, {}, pinned, d[g.start := x], l[g.start := x], old(cache.writes),
      from, w);
  }

  // One pass of install_trans.
  method CopyHome(cache: BCache, a: nat, ghost list: seq<int>, b: nat, ghost d: RedoLog.Image, ghost l: RedoLog.Image)
    requires cache.Valid() && Tied(cache.buf[..], cache.g, cache.disk, {}, list, d, l)
    requires a < |d| == |l| && b < |d| && a !in list && |list| < NBUF && RedoLog.Distinct(list) && list != []
             && b == list[0]
    modifies cache.buf, cache`g, cache`disk, cache`writes
    ensures cache.Valid() && Tied(cache.buf[..], cache.g, cache.disk, {}, list[1..], d[b := l[a]], l[b := l[a]])
    ensures cache.writes == old(cache.writes) + [cache.disk]
  {
    hide Inv, Tied, Loose;
    var lbuf, dbuf := TakeTwo(cache, a, b, list, d, l);
    ghost var h := {} + {lbuf} + {dbuf};
    IsPinned(cache.buf[..], cache.g, cache.disk, h, list, d, l, lbuf, a);
    Put(cache, dbuf, b, cache.buf[lbuf].data, h, list, d, l);
    assert !cache.g.dirty[lbuf];
    Write(cache, dbuf, b, cache.buf[dbuf].data, h, list, d, l[b := l[a]]);
    Unpin(cache, dbuf, h, list, d[b := l[a]], l[b := l[a]]);
    Give(cache, lbuf, h, list[1..], d[b := l[a]], l[b := l[a]]);
    assert h - {lbuf} == {dbuf} && {dbuf} - {dbuf} == {};
    Give(cache, dbuf, {dbuf}, list[1..], d[b := l[a]], l[b := l[a]]);
  }

  // The facts that one pass of install_trans needs.
  lemma HomeNext(g: RedoLog.Geometry, d: RedoLog.Image, l: RedoLog.Image, list: seq<int>, k: nat)
    requires g.Fits(d) && RedoLog.HomeBlocks(g, |d|, list) && |l| == |d| && k < |list|
    requires forall b :: g.start < b <= g.start + |list| ==> l[b] == d[b]
    ensures 0 <= list[k] < |d| && g.start + 1 + k < |d| && g.start + 1 + k !in list[k..]
    ensures list[k..] != [] && list[k..][0] == list[k] && RedoLog.Distinct(list[k..]) && list[k..][1..] == list[k + 1..]
    ensures var x := RedoLog.Installed(g, l, list, k)[g.start + 1 + k];
            && RedoLog.Installed(g, d, list, k + 1) == RedoLog.Installed(g, d, list, k)[list[k] := x]
            && RedoLog.Installed(g, l, list, k + 1) == RedoLog.Installed(g, l, list, k)[list[k] := x]
  {
    hide RedoLog.Installed;
    RedoLog.InstallNext(g, d, list, k);
    RedoLog.InstallNext(g, l, list, k);
    assert forall i :: 0 <= i < |list| ==> list[i] != g.start + 1 + k;
  }

  lemma HomeNothing(g: RedoLog.Geometry, d: RedoLog.Image, list: seq<int>)
    requires g.Fits(d) && RedoLog.HomeBlocks(g, |d|, list)
    ensures RedoLog.Installed(g, d, list, 0) == d && list[0..] == list && RedoLog.InstallWrites(g, d, list, 0) == []
  {
  }

  /** install_trans over the cache: each block goes home and is unpinned. */
  method InstallTrans(cache: BCache, g: RedoLog.Geometry, list: seq<int>, ghost d: RedoLog.Image,
                      ghost l: RedoLog.Image, ghost from: nat, ghost w: seq<RedoLog.Image>)
    requires cache.Valid() && Tied(cache.buf[..], cache.g, cache.disk, {}, list, d, l) && Traces(cache.writes, from, w)
    requires g.Fits(d) && RedoLog.HomeBlocks(g, |d|, list) && |l| == |d| && |list| < NBUF
    requires forall b :: g.start < b <= g.start + |list| ==> l[b] == d[b]
    modifies cache.buf, cache`g, cache`disk, cache`writes
    ensures cache.Valid()
    ensures Tied(cache.buf[..], cache.g, cache.disk, {}, [], RedoLog.Installed(g, d, list, |list|),
            RedoLog.Installed(g, l, list, |list|))
    ensures Traces(cache.writes, from, w + RedoLog.InstallWrites(g, d, list, |list|))
  {
    hide Inv, Tied, Loose, Traces, RedoLog.Installed, RedoLog.HomeBlocks;
    var k := 0;
    HomeNothing(g, d, list);
    HomeNothing(g, l, list);
    assert w + [] == w;
    while k < |list|
      invariant k <= |list| && cache.Valid()
      invariant Tied(cache.buf[..], cache.g, cache.disk, {}, list[k..], RedoLog.Installed(g, d, list, k),
                RedoLog.Installed(g, l, list, k))
      invariant Traces(cache.writes, from, w + RedoLog.InstallWrites(g, d, list, k))
    {
      HomeNext(g, d, l, list, k);
      ghost var stores := cache.writes;
      CopyHome(cache, g.start + k + 1, list[k..], list[k], RedoLog.Installed(g, d, list, k),
        RedoLog.Installed(g, l, list, k));
      k := k + 1;
      TraceNext(cache.buf[..], cache.g, cache.disk, {}, list[k..], RedoLog.Installed(g, d, list, k),
        RedoLog.Installed(g, l, list, k),
                stores, from, w + RedoLog.InstallWrites(g, d, list, k - 1));
      assert w + RedoLog.InstallWrites(g, d, list, k - 1) + [RedoLog.Installed(g, d, list, k)] ==
             w + RedoLog.InstallWrites(g, d, list, k);
    }
    assert list[|list|..] == [];
  }

  // The writes of the four parts of commit, where cache and disk differ in the transaction only.
  lemma CommitParts(g: RedoLog.Geometry, d: RedoLog.Image, l: RedoLog.Image, list: seq<int>)
    requires RedoLog.Consistent(g, d, l, list)
    ensures |l| == |d| && g.Fits(d) && RedoLog.HomeBlocks(g, |d|, list)
    ensures var d1, l1 := RedoLog.Copied(g, d, l, list, |list|), RedoLog.Copied(g, l, l, list, |list|);
            var x := RedoLog.Header(l1[g.start], list);
            var d2, l2 := d1[g.start := x], l1[g.start := x];
            && (forall b :: g.start < b <= g.start + |list| ==> l2[b] == d2[b])
            && var d3, l3 := RedoLog.Installed(g, d2, list, |list|), RedoLog.Installed(g, l2, list, |list|);
               var y := RedoLog.Header(l3[g.start], []);
               && d3[g.start := y] == l3[g.start := y] == RedoLog.CommitAt(g, d, l, list, 2 * |list| + 2)
               && RedoLog.CopyWrites(g, d, l, list, |list|) + [d2] + RedoLog.InstallWrites(g, d2, list, |list|)
                 + [d3[g.start := y]]
                  == RedoLog.CommitWrites(g, d, l, list)
  {
    RedoLog.ConsistentFacts(g, d, l, list);
    RedoLog.CopyAgrees(g, d, l, list);
    hide RedoLog.Copied, RedoLog.Installed, RedoLog.Header, RedoLog.CopyWrites, RedoLog.InstallWrites,
         RedoLog.HomeBlocks, RedoLog.Consistent;
    var d1, l1 := RedoLog.Copied(g, d, l, list, |list|), RedoLog.Copied(g, l, l, list, |list|);
    SameStart(g, d, l, list);
    var x := RedoLog.Header(l1[g.start], list);
    RedoLog.InstallAgrees(g, d1[g.start := x], l1[g.start := x], list);
    RedoLog.InstallKeepsHeader(g, d1[g.start := x], list, |list|);
  }

  lemma SameStart(g: RedoLog.Geometry, d: RedoLog.Image, l: RedoLog.Image, list: seq<int>)
    requires |l| == |d| && g.Fits(d) && RedoLog.HomeBlocks(g, |d|, list) && l[g.start] == d[g.start]
    ensures RedoLog.Copied(g, l, l, list, |list|)[g.start] == RedoLog.Copied(g, d, l, list, |list|)[g.start]
            == d[g.start]
  {
  }

  // The four parts of commit, one after the other.
  method CommitBlocks(cache: BCache, g: RedoLog.Geometry, list: seq<int>, ghost d: RedoLog.Image,
                      ghost l: RedoLog.Image)
    requires cache.Valid() && Tied(cache.buf[..], cache.g, cache.disk, {}, list, d, l)
    requires RedoLog.Consistent(g, d, l, list) && |list| < NBUF
    modifies cache.buf, cache`g, cache`disk, cache`writes
    ensures cache.Valid() && g.Fits(d) && RedoLog.HomeBlocks(g, |d|, list) && |l| == |d|
    ensures var end := RedoLog.CommitAt(g, d, l, list, 2 * |list| + 2);
            Tied(cache.buf[..], cache.g, cache.disk, {}, [], end, end)
    ensures Traces(cache.writes, |old(cache.writes)|, RedoLog.CommitWrites(g, d, l, list))
  {
    hide Inv, Tied, Traces, RedoLog.Consistent, RedoLog.CommitAt, RedoLog.CommitWrites, RedoLog.CopyWrites,
         RedoLog.InstallWrites, RedoLog.Copied, RedoLog.Installed, RedoLog.Header, RedoLog.HomeBlocks;
    ghost var from := |cache.writes|;
    CommitParts(g, d, l, list);
    WriteLog(cache, g, list, d, l, from);
    ghost var d1, l1 := RedoLog.Copied(g, d, l, list, |list|), RedoLog.Copied(g, l, l, list, |list|);
    ghost var w := RedoLog.CopyWrites(g, d, l, list, |list|);
    ghost var x := RedoLog.Header(l1[g.start], list);
    ghost var d2, l2 := d1[g.start := x], l1[g.start := x];
    WriteHead(cache, g, list, list, d1, l1, from, w);
    InstallTrans(cache, g, list, d2, l2, from, w + [d2]);
    ghost var d3, l3 := RedoLog.Installed(g, d2, list, |list|), RedoLog.Installed(g, l2, list, |list|);
    WriteHead(cache, g, [], [], d3, l3, from, w + [d2] + RedoLog.InstallWrites(g, d2, list, |list|));
  }

  /**
   commit over the cache.  It never lacks a buffer while the transaction has fewer blocks than
   there are buffers, ends with nothing pinned, and the device under the cache goes through
   exactly the disks that the crashes of RedoLog are taken from.
   */
  method Commit(cache: BCache, log: RedoLog.Log)
    requires cache.Valid() && log.Valid()
    requires Tied(cache.buf[..], cache.g, cache.disk, {}, log.block[..log.n], log.disk, log.latest)
    requires log.n < NBUF
    modifies cache.buf, cache`g, cache`disk, cache`writes, log`disk, log`latest, log`writes, log`n, log`pinned
    ensures cache.Valid() && log.Valid() && log.n == 0 && log.latest == log.disk
    ensures Tied(cache.buf[..], cache.g, cache.disk, {}, [], log.disk, log.latest)
    ensures RedoLog.SameHome(log.g, log.disk, old(log.latest))
    ensures |log.writes| >= |old(log.writes)| && log.writes[..|old(log.writes)|] == old(log.writes)
    ensures Traces(cache.writes, |old(cache.writes)|, log.writes[|old(log.writes)|..])
  {
    hide Inv, Tied, Traces, RedoLog.Consistent, RedoLog.CommitAt, RedoLog.CommitWrites, RedoLog.HomeBlocks,
         RedoLog.SameHome;
    ghost var d, l, was := log.disk, log.latest, log.writes;
    var list := log.block[..log.n];
    RedoLog.ConsistentFacts(log.g, d, l, list);
    TracesNone(cache.writes);
    if log.n > 0 {
      CommitBlocks(cache, log.g, list, d, l);
      log.Commit();
      assert log.writes[|was|..] == RedoLog.CommitWrites(log.g, d, l, list);
    } else {
      log.Commit();
      assert list == [] && log.writes[|was|..] == [];
    }
  }

  /** A holder's change and log_write, over the cache: the buffer is pinned when its block is new to the transaction. */
  method LogWrite(cache: BCache, log: RedoLog.Log, b: nat, data: RedoLog.Block)
    requires cache.Valid() && log.Valid() && Tied(cache.buf[..], cache.g, cache.disk, {}, log.block[..log.n],
             log.disk, log.latest)
    requires log.outstanding >= 1 && log.n < log.g.Capacity() && log.n < NBUF && b < |log.disk| && !log.g.InLog(b)
    modifies cache, cache.buf, log`latest, log`n, log`pinned, log.block
    ensures cache.Valid() && log.Valid() && Tied(cache.buf[..], cache.g, cache.disk, {}, log.block[..log.n], log.disk,
            log.latest)
    ensures log.latest == old(log.latest)[b := data] && cache.writes == old(cache.writes)
    ensures log.block[..log.n] == old(log.block[..log.n]) + if b in old(log.block[..log.n]) then [] else [b]
  {
    hide Inv, Tied, Loose, RedoLog.Consistent;
    ghost var d, l, list := log.disk, log.latest, log.block[..log.n];
    TiedShape(cache.buf[..], cache.g, cache.disk, {}, list, d, l, b);
    LooseNone(cache.buf[..], b);
    var c := Take(cache, b, {}, list, d, l);
    ghost var h := {} + {c};
    assert h - {c} == {};
    Put(cache, c, b, data, h, list, d, l);
    IsPinned(cache.buf[..], cache.g, cache.disk, h, list, d, l[b := data], c, b);
    var n := log.n;
    log.LogWrite(b, data);
    if log.n > n {
      Pin(cache, c, b, h, list, d, l[b := data]);
      Give(cache, c, h, list + [b], d, l[b := data]);
    } else {
      assert list + [] == list;
      Give(cache, c, h, list, d, l[b := data]);
    }
  }

  // ---------- Too many pins ----------

  ghost predicate HasBlock(s: seq<Buf>, p: set<nat>, b: int)
    requires |s| == NBUF + 1
  {
    exists c :: c in p && c < NBUF && s[c].key.dev == DEV && s[c].key.blockno == b
  }

  lemma {:induction false} ManyPinned(s: seq<Buf>, p: set<nat>, list: seq<int>)
    requires |s| == NBUF + 1 && RedoLog.Distinct(list)
    requires forall i :: 0 <= i < |list| ==> HasBlock(s, p, list[i])
    ensures |p| >= |list|
    decreases |list|
  {
    if list != [] {
      assert HasBlock(s, p, list[0]);
      var c :| c in p && c < NBUF && s[c].key.dev == DEV && s[c].key.blockno == list[0];
      var rest := list[1..];
      forall i | 0 <= i < |rest|
        ensures HasBlock(s, p - {c}, rest[i])
      {
        assert HasBlock(s, p, list[i + 1]);
        var e :| e in p && e < NBUF && s[e].key.dev == DEV && s[e].key.blockno == list[i + 1];
        assert e != c;
      }
      ManyPinned(s, p - {c}, rest);
    }
  }

  lemma {:induction false} NotMore(p: set<nat>, n: nat)
    requires (forall c :: c in p ==> c < n) && |p| >= n
    ensures forall c: nat :: c < n ==> c in p
  {
    if n > 0 && n - 1 in p {
      NotMore(p - {n - 1}, n - 1);
    } else if n > 0 {
      AtMost(p, n - 1);
    }
  }

  lemma {:induction false} AtMost(p: set<nat>, n: nat)
    requires forall c :: c in p ==> c < n
    ensures |p| <= n
  {
    if n == 0 {
      assert p == {};
    } else {
      AtMost(p - {n - 1}, n - 1);
    }
  }

  /**
   The bread of a log block with which commit begins finds a buffer if and only if the
   transaction has fewer than NBUF blocks; LOGSIZE is as many.
   */
  lemma CommitNeedsBuffer(s: seq<Buf>, g: Ghost, disk: Store, list: seq<int>, d: RedoLog.Image, l: RedoLog.Image,
                          b: nat)
    requires Tied(s, g, disk, {}, list, d, l) && RedoLog.Distinct(list) && |list| <= RedoLog.LOGSIZE && b !in list
    ensures |s| == NBUF + 1
    ensures (exists c :: 0 <= c < NBUF && (s[c].key == K(b) || s[c].refcnt == 0)) <==> |list| < NBUF
  {
    if |list| < NBUF {
      SomeUnused(s, g, disk, {}, list, d, l);
    } else {
      var p := PinnedSet(g.pinned);
      hide Linked, Lru, OneEach, Coherent, Shows;
      forall i | 0 <= i < |list|
        ensures HasBlock(s, p, list[i])
      {
        assert PinnedAt(s, g, list[i]);
        var c :| 0 <= c < NBUF && g.pinned[c] && s[c].key.dev == DEV && s[c].key.blockno == list[i];
        assert c in p;
      }
      ManyPinned(s, p, list);
      NotMore(p, NBUF);
      forall c: nat | c < NBUF
        ensures s[c].key != K(b) && s[c].refcnt > 0
      {
        assert c in p && g.pinned[c];
      }
    }
  }
}
