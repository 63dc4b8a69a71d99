/**
 The buffer cache of labo2/kernel/bio.c, on an array of buffers whose `prev` and `next`
 fields thread a ring through a head.  Each method is one critical section of
 bcache.lock or of a buffer's sleeplock, so a run of the system, with any interleaving
 of its processes, is a sequence of method calls.
 */
module BufferCache {
  const NBUF: nat := 30
  const HEAD: nat := NBUF

  type Block = seq<int>

  datatype Key = Key(dev: nat, blockno: nat)

  // struct buf; `locked` is b->lock.locked.
  datatype Buf = Buf(key: Key, valid: bool, locked: bool, refcnt: nat, prev: nat, next: nat, data: Block)

  // A disk, or the abstract contents of one: blocks never written read as empty.
  type Store = map<Key, Block>

  function At(m: Store, k: Key): Block {
    if k in m then m[k] else []
  }

  /**
   What the proofs remember beside the buffers.  `order` lists the ring from head.next on.
   For each buffer: processes that bget gave it to and that wait for its sleeplock,
   processes that have released the sleeplock and not yet dropped their reference,
   whether it is pinned by the open transaction, whether its data has not been written to
   disk, and when brelse last dropped its count to zero (0 for never).  `latest` is the
   plain map that the cache stands for.
   */
  datatype Ghost = Ghost(order: seq<nat>, waiting: seq<nat>, leaving: seq<nat>, pinned: seq<bool>,
                         dirty: seq<bool>, released: seq<nat>, clock: nat, latest: Store)

  // ---------- Invariants ----------

  function Ring(order: seq<nat>): seq<nat> {
    [HEAD] + order + [HEAD]
  }

  ghost predicate Buffers(order: seq<nat>) {
    && (forall i :: 0 <= i < |order| ==> order[i] < NBUF)
    && (forall i, j :: 0 <= i < j < |order| ==> order[i] != order[j])
  }

  // next and prev lead through head and `order` in the two directions.
  ghost predicate Threads(s: seq<Buf>, order: seq<nat>)
    requires |s| == NBUF + 1 && Buffers(order)
  {
    var r := Ring(order);
    && (forall i :: 0 <= i <= |order| ==> s[r[i]].next == r[i + 1])
    && (forall i :: 1 <= i <= |order| + 1 ==> s[r[i]].prev == r[i - 1])
  }

  // `order` lists every buffer once.
  ghost predicate AllBuffers(order: seq<nat>) {
    |order| == NBUF && Buffers(order) && forall b :: 0 <= b < NBUF ==> b in order
  }

  // prev and next are inverse and make one cycle of the head and all buffers.
  ghost predicate Linked(s: seq<Buf>, order: seq<nat>)
    requires |s| == NBUF + 1
  {
    AllBuffers(order) && Threads(s, order)
  }

  // Most recently released first.
  ghost predicate Lru(order: seq<nat>, released: seq<nat>, clock: nat)
    requires AllBuffers(order) && |released| == NBUF
  {
    && (forall i, j :: 0 <= i < j < NBUF ==> released[order[i]] >= released[order[j]])
    && forall b :: 0 <= b < NBUF ==> released[b] < clock
  }

  function One(b: bool): nat {
    if b then 1 else 0
  }

  ghost predicate Counted(s: seq<Buf>, waiting: seq<nat>, leaving: seq<nat>, pinned: seq<bool>)
    requires |s| == NBUF + 1
  {
    && |waiting| == |leaving| == |pinned| == NBUF
    && forall b :: 0 <= b < NBUF ==> s[b].refcnt == One(s[b].locked) + waiting[b] + leaving[b] + One(pinned[b])
  }

  // At most one buffer for a block; buffers in use belong to a device.
  ghost predicate OneEach(s: seq<Buf>)
    requires |s| == NBUF + 1
  {
    && (forall a, b :: 0 <= a < b < NBUF && s[a].key.dev >= 1 ==> s[a].key != s[b].key)
    && forall b :: 0 <= b < NBUF && s[b].refcnt > 0 ==> s[b].key.dev >= 1
  }

  // Valid buffers hold the latest contents; only buffers in use may be ahead of the disk.
  ghost predicate Coherent(s: seq<Buf>, pinned: seq<bool>, dirty: seq<bool>, disk: Store, latest: Store)
    requires |s| == NBUF + 1
  {
    && |pinned| == |dirty| == NBUF
    && (forall b :: 0 <= b < NBUF && s[b].valid ==> s[b].key.dev >= 1 && s[b].data == At(latest, s[b].key))
    && (forall b :: 0 <= b < NBUF && dirty[b] ==> s[b].valid && (s[b].locked || pinned[b]))
    && forall k: Key :: At(disk, k) == At(latest, k) || exists b :: 0 <= b < NBUF && dirty[b] && s[b].key == k
  }

  ghost predicate Inv(s: seq<Buf>, g: Ghost, disk: Store) {
    && |s| == NBUF + 1
    && |g.waiting| == |g.leaving| == |g.pinned| == |g.dirty| == |g.released| == NBUF
    && Linked(s, g.order)
    && Lru(g.order, g.released, g.clock)
    && Counted(s, g.waiting, g.leaving, g.pinned)
    && OneEach(s)
    && Coherent(s, g.pinned, g.dirty, disk, g.latest)
  }

  // ---------- The ring ----------

  // Links do not depend on the other fields.
  lemma ThreadsFrame(s: seq<Buf>, t: seq<Buf>, order: seq<nat>)
    requires |s| == |t| == NBUF + 1 && Buffers(order) && Threads(s, order)
    requires forall i :: 0 <= i <= NBUF ==> t[i].prev == s[i].prev && t[i].next == s[i].next
    ensures Threads(t, order)
  {
  }

  predicate SameCore(x: Buf, y: Buf) {
    x.key == y.key && x.valid == y.valid && x.locked == y.locked && x.refcnt == y.refcnt && x.data == y.data
  }

  ghost predicate SameButLinks(s: seq<Buf>, t: seq<Buf>) {
    |s| == |t| && forall i :: 0 <= i < |s| ==> SameCore(s[i], t[i])
  }

  function SetNext(s: seq<Buf>, i: nat, v: nat): (t: seq<Buf>)
    requires i < |s|
    ensures SameButLinks(s, t)
  {
    s[i := s[i].(next := v)]
  }

  function SetPrev(s: seq<Buf>, i: nat, v: nat): (t: seq<Buf>)
    requires i < |s|
    ensures SameButLinks(s, t)
  {
    s[i := s[i].(prev := v)]
  }

  // b->next->prev = b->prev; b->prev->next = b->next;
  function Unlinked(s: seq<Buf>, b: nat): (t: seq<Buf>)
    requires |s| == NBUF + 1 && b < NBUF && s[b].prev <= NBUF && s[b].next <= NBUF
    ensures SameButLinks(s, t)
  {
    SetNext(SetPrev(s, s[b].next, s[b].prev), s[b].prev, s[b].next)
  }

  // Link `b` in between the head and its successor.
  function Relinked(s: seq<Buf>, b: nat): (t: seq<Buf>)
    requires |s| == NBUF + 1 && b < NBUF && s[HEAD].next <= NBUF
    ensures SameButLinks(s, t)
  {
    SetNext(SetPrev(SetPrev(SetNext(s, b, s[HEAD].next), b, HEAD), s[HEAD].next, b), HEAD, b)
  }

  function Without(order: seq<nat>, p: nat): seq<nat>
    requires p < |order|
  {
    order[..p] + order[p + 1..]
  }

  lemma WithoutBuffers(order: seq<nat>, p: nat)
    requires Buffers(order) && p < |order|
    ensures Buffers(Without(order, p)) && order[p] !in Without(order, p)
    ensures forall i :: 0 <= i <= |order| ==> Ring(Without(order, p))[i] == Ring(order)[if i <= p then i else i + 1]
  {
  }

  lemma UnlinkNext(s: seq<Buf>, order: seq<nat>, p: nat)
    requires |s| == NBUF + 1 && Buffers(order) && Threads(s, order) && p < |order|
    ensures s[order[p]].prev <= NBUF && s[order[p]].next <= NBUF
    ensures var q := Ring(Without(order, p));
            forall i :: 0 <= i < |order| ==> Unlinked(s, order[p])[q[i]].next == q[i + 1]
  {
    WithoutBuffers(order, p);
    var r, q, b := Ring(order), Ring(Without(order, p)), order[p];
    assert r[p + 1] == b && s[b].next == r[p + 2] && s[b].prev == r[p];
    forall i | 0 <= i < |order| ensures Unlinked(s, b)[q[i]].next == q[i + 1] {
      assert i > p ==> s[r[i + 1]].next == r[i + 2];
    }
  }

  lemma UnlinkPrev(s: seq<Buf>, order: seq<nat>, p: nat)
    requires |s| == NBUF + 1 && Buffers(order) && Threads(s, order) && p < |order|
    ensures s[order[p]].prev <= NBUF && s[order[p]].next <= NBUF
    ensures var q := Ring(Without(order, p));
            forall i :: 1 <= i <= |order| ==> Unlinked(s, order[p])[q[i]].prev == q[i - 1]
  {
    WithoutBuffers(order, p);
    var r, q, b := Ring(order), Ring(Without(order, p)), order[p];
    assert r[p + 1] == b && s[b].next == r[p + 2] && s[b].prev == r[p];
    forall i | 1 <= i <= |order| ensures Unlinked(s, b)[q[i]].prev == q[i - 1] {
      assert i > p ==> s[r[i + 1]].prev == r[i];
    }
  }

  lemma Unlink(s: seq<Buf>, order: seq<nat>, p: nat)
    requires |s| == NBUF + 1 && Buffers(order) && Threads(s, order) && p < |order|
    ensures Buffers(Without(order, p)) && order[p] !in Without(order, p)
    ensures s[order[p]].prev <= NBUF && s[order[p]].next <= NBUF
    ensures Threads(Unlinked(s, order[p]), Without(order, p))
  {
    WithoutBuffers(order, p);
    UnlinkNext(s, order, p);
    UnlinkPrev(s, order, p);
  }

  lemma Relink(s: seq<Buf>, order: seq<nat>, b: nat)
    requires |s| == NBUF + 1 && Buffers(order) && Threads(s, order)
    requires b < NBUF && b !in order
    ensures Buffers([b] + order)
    ensures s[HEAD].next <= NBUF
    ensures Threads(Relinked(s, b), [b] + order)
  {
    var r, o := Ring(order), [b] + order;
    var q := Ring(o);
    assert r[0] == HEAD && s[HEAD].next == r[1];
    assert forall i :: 2 <= i < |q| ==> q[i] == r[i - 1];
    var t := Relinked(s, b);
    forall i | 0 <= i <= |o| ensures t[q[i]].next == q[i + 1] {
      assert i >= 2 ==> s[r[i - 1]].next == r[i];
    }
    forall i | 1 <= i <= |o| + 1 ensures t[q[i]].prev == q[i - 1] {
      assert i >= 2 ==> s[r[i - 1]].prev == r[i - 2];
    }
  }

  function ToFront(order: seq<nat>, p: nat): seq<nat>
    requires p < |order|
  {
    [order[p]] + Without(order, p)
  }

  // brelse moves the buffer to the front of the ring, and touches nothing but links.
  lemma MoveToFront(s: seq<Buf>, order: seq<nat>, p: nat)
    requires |s| == NBUF + 1 && Linked(s, order) && p < NBUF
    ensures s[order[p]].prev <= NBUF && s[order[p]].next <= NBUF
    ensures var t := Unlinked(s, order[p]);
            && t[HEAD].next <= NBUF
            && Linked(Relinked(t, order[p]), ToFront(order, p))
            && SameButLinks(s, Relinked(t, order[p]))
  {
    var b := order[p];
    Unlink(s, order, p);
    var t := Unlinked(s, b);
    hide Threads, Unlinked, Relinked, Buffers;
    Relink(t, Without(order, p), b);
    ToFrontHasAll(order, p);
  }

  lemma ToFrontHasAll(order: seq<nat>, p: nat)
    requires AllBuffers(order) && p < NBUF
    ensures forall b :: 0 <= b < NBUF ==> b in ToFront(order, p)
  {
    var o := ToFront(order, p);
    forall b: nat | 0 <= b < NBUF ensures b in o {
      assert b in order;
      var i :| 0 <= i < |order| && order[i] == b;
      assert o[if i == p then 0 else if i < p then i + 1 else i] == b;
    }
  }

  // ---------- Every critical section keeps the invariant ----------

  // A change to one buffer that leaves its links alone.
  lemma LinkedKept(s: seq<Buf>, order: seq<nat>, b: nat, x: Buf)
    requires |s| == NBUF + 1 && Linked(s, order) && b < NBUF
    requires x.prev == s[b].prev && x.next == s[b].next
    ensures Linked(s[b := x], order)
  {
    ThreadsFrame(s, s[b := x], order);
  }

  // bget finds the block: one more waiter.
  lemma HitKeepsInv(s: seq<Buf>, g: Ghost, disk: Store, b: nat)
    requires Inv(s, g, disk) && b < NBUF && s[b].key.dev >= 1
    ensures Inv(s[b := s[b].(refcnt := s[b].refcnt + 1)], g.(waiting := g.waiting[b := g.waiting[b] + 1]), disk)
  {
    LinkedKept(s, g.order, b, s[b].(refcnt := s[b].refcnt + 1));
    hide Linked, Lru;
  }

  // bget recycles an unreferenced buffer.
  lemma RecycleKeepsInv(s: seq<Buf>, g: Ghost, disk: Store, b: nat, k: Key)
    requires Inv(s, g, disk) && b < NBUF && s[b].refcnt == 0 && k.dev >= 1
    requires forall c :: 0 <= c < NBUF ==> s[c].key != k
    ensures Inv(s[b := s[b].(key := k, valid := false, refcnt := 1)], g.(waiting := g.waiting[b := g.waiting[b] + 1]),
            disk)
  {
    LinkedKept(s, g.order, b, s[b].(key := k, valid := false, refcnt := 1));
    hide Linked, Lru;
    assert !s[b].locked && !g.pinned[b] && !g.dirty[b];
  }

  lemma AcquireKeepsInv(s: seq<Buf>, g: Ghost, disk: Store, b: nat)
    requires Inv(s, g, disk) && b < NBUF && !s[b].locked && g.waiting[b] > 0
    ensures Inv(s[b := s[b].(locked := true)], g.(waiting := g.waiting[b := g.waiting[b] - 1]), disk)
  {
    LinkedKept(s, g.order, b, s[b].(locked := true));
    hide Linked, Lru;
  }

  lemma InUse(s: seq<Buf>, g: Ghost, disk: Store, b: nat)
    requires Inv(s, g, disk) && b < NBUF && s[b].locked
    ensures s[b].refcnt >= 1 && s[b].key.dev >= 1
  {
  }

  // The disk holds the latest contents of a block that no valid buffer holds.
  lemma FillKeepsInv(s: seq<Buf>, g: Ghost, disk: Store, b: nat)
    requires Inv(s, g, disk) && b < NBUF && s[b].locked && !s[b].valid
    ensures At(disk, s[b].key) == At(g.latest, s[b].key)
    ensures Inv(s[b := s[b].(data := At(disk, s[b].key), valid := true)], g, disk)
  {
    var x := s[b].(data := At(disk, s[b].key), valid := true);
    LinkedKept(s, g.order, b, x);
    hide Linked, Lru;
    InUse(s, g, disk, b);
  }

  lemma ModifyKeepsInv(s: seq<Buf>, g: Ghost, disk: Store, b: nat, data: Block)
    requires Inv(s, g, disk) && b < NBUF && s[b].locked && s[b].valid
    ensures Inv(s[b := s[b].(data := data)], g.(dirty := g.dirty[b := true], latest := g.latest[s[b].key := data]),
            disk)
  {
    hide Linked, Lru, Counted, OneEach, Coherent;
    LinkedKept(s, g.order, b, s[b].(data := data));
    InUse(s, g, disk, b);
    DataUncounted(s, g, b, data);
    ModifyCoherent(s, g, disk, b, data);
  }

  lemma DataUncounted(s: seq<Buf>, g: Ghost, b: nat, data: Block)
    requires |s| == NBUF + 1 && b < NBUF && Counted(s, g.waiting, g.leaving, g.pinned) && OneEach(s)
    ensures Counted(s[b := s[b].(data := data)], g.waiting, g.leaving, g.pinned) && OneEach(s[b := s[b].(data := data)])
  {
  }

  lemma ModifyCoherent(s: seq<Buf>, g: Ghost, disk: Store, b: nat, data: Block)
    requires |s| == NBUF + 1 && b < NBUF && s[b].locked && s[b].valid && s[b].key.dev >= 1
    requires OneEach(s) && Coherent(s, g.pinned, g.dirty, disk, g.latest)
    ensures Coherent(s[b := s[b].(data := data)], g.pinned, g.dirty[b := true], disk, g.latest[s[b].key := data])
  {
    var t, dirty, latest := s[b := s[b].(data := data)], g.dirty[b := true], g.latest[s[b].key := data];
    forall k: Key
      ensures At(disk, k) == At(latest, k) || exists c :: 0 <= c < NBUF && dirty[c] && t[c].key == k
    {
      if k == s[b].key {
        assert dirty[b] && t[b].key == k;
      } else if At(disk, k) != At(latest, k) {
        var c :| 0 <= c < NBUF && g.dirty[c] && s[c].key == k;
        assert dirty[c] && t[c].key == k;
      }
    }
  }

  lemma WriteKeepsInv(s: seq<Buf>, g: Ghost, disk: Store, b: nat)
    requires Inv(s, g, disk) && b < NBUF && s[b].locked && s[b].valid
    ensures Inv(s, g.(dirty := g.dirty[b := false]), disk[s[b].key := s[b].data])
  {
    hide Linked, Lru, Counted;
  }

  lemma ReleaseKeepsInv(s: seq<Buf>, g: Ghost, disk: Store, b: nat)
    requires Inv(s, g, disk) && b < NBUF && s[b].locked && (g.dirty[b] ==> g.pinned[b])
    ensures Inv(s[b := s[b].(locked := false)], g.(leaving := g.leaving[b := g.leaving[b] + 1]), disk)
  {
    LinkedKept(s, g.order, b, s[b].(locked := false));
    hide Linked, Lru;
  }

  lemma DropKeepsInv(s: seq<Buf>, g: Ghost, disk: Store, b: nat)
    requires Inv(s, g, disk) && b < NBUF && g.leaving[b] > 0
    ensures s[b].refcnt > 0
    ensures Inv(s[b := s[b].(refcnt := s[b].refcnt - 1)], g.(leaving := g.leaving[b := g.leaving[b] - 1]), disk)
  {
    assert s[b].refcnt > 0;
    LinkedKept(s, g.order, b, s[b].(refcnt := s[b].refcnt - 1));
    hide Linked, Lru;
  }

  lemma PinKeepsInv(s: seq<Buf>, g: Ghost, disk: Store, b: nat)
    requires Inv(s, g, disk) && b < NBUF && s[b].locked && !g.pinned[b]
    ensures Inv(s[b := s[b].(refcnt := s[b].refcnt + 1)], g.(pinned := g.pinned[b := true]), disk)
  {
    InUse(s, g, disk, b);
    LinkedKept(s, g.order, b, s[b].(refcnt := s[b].refcnt + 1));
    hide Linked, Lru;
  }

  lemma UnpinKeepsInv(s: seq<Buf>, g: Ghost, disk: Store, b: nat)
    requires Inv(s, g, disk) && b < NBUF && s[b].locked && g.pinned[b] && !g.dirty[b]
    ensures s[b].refcnt >= 2
    ensures Inv(s[b := s[b].(refcnt := s[b].refcnt - 1)], g.(pinned := g.pinned[b := false]), disk)
  {
    assert s[b].refcnt >= 2;
    LinkedKept(s, g.order, b, s[b].(refcnt := s[b].refcnt - 1));
    hide Linked, Lru;
  }

  lemma LruToFront(order: seq<nat>, released: seq<nat>, clock: nat, p: nat)
    requires AllBuffers(order) && |released| == NBUF && Lru(order, released, clock) && p < NBUF
    requires AllBuffers(ToFront(order, p))
    ensures Lru(ToFront(order, p), released[order[p] := clock], clock + 1)
  {
  }

  lemma NotSelfLinked(s: seq<Buf>, order: seq<nat>, p: nat)
    requires |s| == NBUF + 1 && Linked(s, order) && p < NBUF
    ensures s[order[p]].prev != order[p] && s[order[p]].next != order[p]
  {
    var r := Ring(order);
    assert r[p + 1] == order[p] && s[r[p + 1]].next == r[p + 2] && s[r[p + 1]].prev == r[p];
  }

  // The last reference goes: the buffer becomes the most recently released one.
  lemma FrontKeepsInv(s: seq<Buf>, g: Ghost, disk: Store, p: nat)
    requires Inv(s, g, disk) && p < NBUF
    ensures var b := g.order[p];
            && b < NBUF && s[b].prev <= NBUF && s[b].next <= NBUF
            && s[b].prev != b && s[b].next != b
            && Unlinked(s, b)[HEAD].next <= NBUF
            && Inv(Relinked(Unlinked(s, b), b),
                   g.(order := ToFront(g.order, p), released := g.released[b := g.clock], clock := g.clock + 1), disk)
  {
    NotSelfLinked(s, g.order, p);
    MoveToFront(s, g.order, p);
    LruToFront(g.order, g.released, g.clock, p);
    hide Linked, Lru, Unlinked, Relinked, ToFront;
    CoreFrame(s, Relinked(Unlinked(s, g.order[p]), g.order[p]), g, disk);
  }

  lemma CoreFrame(s: seq<Buf>, t: seq<Buf>, g: Ghost, disk: Store)
    requires |s| == NBUF + 1 && SameButLinks(s, t)
    requires Counted(s, g.waiting, g.leaving, g.pinned) && OneEach(s)
    requires Coherent(s, g.pinned, g.dirty, disk, g.latest)
    ensures Counted(t, g.waiting, g.leaving, g.pinned) && OneEach(t)
    ensures Coherent(t, g.pinned, g.dirty, disk, g.latest)
  {
  }

  // ---------- The code ----------

  const UNUSED := Buf(Key(0, 0), false, false, 0, HEAD, HEAD, [])

  // The ring order that binit builds from buffers 0, ..., n - 1.
  function Descending(n: nat): (order: seq<nat>)
    ensures |order| == n && forall i :: 0 <= i < n ==> order[i] == n - 1 - i
  {
    seq(n, i requires 0 <= i < n => n - 1 - i)
  }

  lemma AllUnused(s: seq<Buf>, g: Ghost, disk: Store)
    requires |s| == NBUF + 1 && g.order == Descending(NBUF) && Threads(s, g.order)
    requires forall i :: 0 <= i <= NBUF ==> SameCore(s[i], UNUSED)
    requires g.waiting == g.leaving == g.released == seq(NBUF, i => 0)
    requires g.pinned == g.dirty == seq(NBUF, i => false)
    requires g.latest == disk && g.clock == 1
    ensures Inv(s, g, disk)
  {
    forall b: nat | b < NBUF ensures b in g.order {
      assert g.order[NBUF - 1 - b] == b;
    }
  }

  lemma Follow(s: seq<Buf>, order: seq<nat>, i: nat)
    requires |s| == NBUF + 1 && Linked(s, order) && i <= NBUF + 1
    ensures var r := Ring(order);
            && (i <= NBUF ==> s[r[i]].next == r[i + 1])
            && (i > 0 ==> s[r[i]].prev == r[i - 1])
            && (r[i] == HEAD <==> i == 0 || i == NBUF + 1)
  {
  }

  // Among unreferenced buffers the one nearest the tail was released longest ago.
  lemma OldestUnused(s: seq<Buf>, g: Ghost, p: nat)
    requires |s| == NBUF + 1 && Linked(s, g.order) && p < NBUF
    requires |g.released| == NBUF && Lru(g.order, g.released, g.clock)
    requires forall j :: p < j < NBUF ==> s[g.order[j]].refcnt != 0
    ensures forall c :: 0 <= c < NBUF && s[c].refcnt == 0 ==> g.released[g.order[p]] <= g.released[c]
  {
    forall c | 0 <= c < NBUF && s[c].refcnt == 0
      ensures g.released[g.order[p]] <= g.released[c]
    {
      assert c in g.order;
    }
  }

  lemma Cached(s: seq<Buf>, g: Ghost, disk: Store, b: nat)
    requires Inv(s, g, disk) && b < NBUF && s[b].valid
    ensures s[b].data == At(g.latest, s[b].key)
  {
  }

  lemma Unreferenced(s: seq<Buf>, g: Ghost, disk: Store, b: nat)
    requires Inv(s, g, disk) && b < NBUF && s[b].refcnt == 0
    ensures !s[b].locked
  {
  }

  function Position(order: seq<nat>, b: nat): (p: nat)
    requires AllBuffers(order) && b < NBUF
    ensures p < NBUF && order[p] == b
  {
    assert b in order;
    var p :| 0 <= p < NBUF && order[p] == b;
    p
  }

  lemma SameTransitive(s: seq<Buf>, t: seq<Buf>, u: seq<Buf>)
    requires SameButLinks(s, t) && SameButLinks(t, u)
    ensures SameButLinks(s, u)
  {
  }

  class BCache {
    const buf: array<Buf>
    var disk: Store
    ghost var g: Ghost
    ghost var writes: seq<Store>   // every disk that the device went through

    ghost predicate Valid()
      reads this, buf
    {
      buf.Length == NBUF + 1 && Inv(buf[..], g, disk)
    }

    constructor Binit(disk: Store)
      ensures Valid() && this.disk == disk && g.latest == disk && writes == []
      ensures fresh(buf) && g.clock == 1 && g.released == seq(NBUF, i => 0)
      ensures forall b :: 0 <= b < NBUF ==> buf[b].refcnt == 0
    {
      buf := new Buf[NBUF + 1](i => UNUSED);
      this.disk := disk;
      writes := [];
      new;
      LinkAll();
      g := Ghost(Descending(NBUF), seq(NBUF, i => 0), seq(NBUF, i => 0), seq(NBUF, i => false),
                 seq(NBUF, i => false), seq(NBUF, i => 0), 1, disk);
      AllUnused(buf[..], g, disk);
    }

    method LinkAll()
      requires buf.Length == NBUF + 1 && buf[HEAD].next == buf[HEAD].prev == HEAD
      modifies buf
      ensures Threads(buf[..], Descending(NBUF)) && SameButLinks(old(buf[..]), buf[..])
    {
      assert Threads(buf[..], Descending(0));
      for b := 0 to NBUF
        invariant Threads(buf[..], Descending(b)) && SameButLinks(old(buf[..]), buf[..])
      {
        hide Threads, Relinked, SameButLinks;
        ghost var s := buf[..];
        Relink(s, Descending(b), b);
        assert [b] + Descending(b) == Descending(b + 1);
        LinkAfterHead(b);
        SameTransitive(old(buf[..]), s, buf[..]);
      }
    }

    // b->next = head.next; b->prev = &head; head.next->prev = b; head.next = b
    method LinkAfterHead(b: nat)
      requires buf.Length == NBUF + 1 && b < NBUF && buf[HEAD].next <= NBUF
      modifies buf
      ensures buf[..] == Relinked(old(buf[..]), b)
      ensures SameButLinks(old(buf[..]), buf[..])
    {
      ghost var s := buf[..];
      var first := buf[HEAD].next;
      buf[b] := buf[b].(next := first);
      buf[b] := buf[b].(prev := HEAD);
      buf[first] := buf[first].(prev := b);
      buf[HEAD] := buf[HEAD].(next := b);
      assert buf[..] == Relinked(s, b);
    }

    /**
     The critical section of bget.  A buffer that has the block gains a waiter; otherwise
     the buffer recycled is, of those that nobody uses, the one released longest ago.
     There must be a buffer to give: bget panics when there is none.
     */
    method Bget(k: Key) returns (b: nat)
      requires Valid() && k.dev >= 1
      requires exists c :: 0 <= c < NBUF && (buf[c].key == k || buf[c].refcnt == 0)
      modifies buf, this`g
      ensures Valid() && b < NBUF && buf[b].key == k
      ensures g == old(g).(waiting := old(g).waiting[b := old(g).waiting[b] + 1])
      ensures buf[..] == old(buf[..])[b := buf[b]]
      ensures buf[b].locked == old(buf[b].locked)
      ensures old(buf[b].key) == k ==> buf[b] == old(buf[b]).(refcnt := old(buf[b].refcnt) + 1)
      ensures old(buf[b].key) != k ==>
        && (forall c :: 0 <= c < NBUF ==> old(buf[c].key) != k)
        && old(buf[b].refcnt) == 0 && !buf[b].valid && buf[b].refcnt == 1
        && forall c :: 0 <= c < NBUF && old(buf[c].refcnt) == 0 ==> g.released[b] <= g.released[c]
    {
      hide Linked, Lru, Counted, OneEach, Coherent;
      ghost var s := buf[..];
      var found;
      found, b := FindCached(k);
      if found {
        HitKeepsInv(s, g, disk, b);
        buf[b] := buf[b].(refcnt := buf[b].refcnt + 1);
        assert buf[..] == s[b := s[b].(refcnt := s[b].refcnt + 1)];
      } else {
        b := FindUnused();
        RecycleKeepsInv(s, g, disk, b, k);
        buf[b] := buf[b].(key := k, valid := false, refcnt := 1);
        assert buf[..] == s[b := s[b].(key := k, valid := false, refcnt := 1)];
      }
      g := g.(waiting := g.waiting[b := g.waiting[b] + 1]);
    }

    // Is the block already cached?
    method FindCached(k: Key) returns (found: bool, b: nat)
      requires Valid()
      ensures found ==> b < NBUF && buf[b].key == k
      ensures !found ==> forall c :: 0 <= c < NBUF ==> buf[c].key != k
    {
      ghost var s, r, i := buf[..], Ring(g.order), 0;
      Follow(s, g.order, 0);
      b := buf[HEAD].next;
      while b != HEAD
        invariant 0 <= i <= NBUF && b == r[i + 1]
        invariant forall j :: 0 <= j < i ==> s[g.order[j]].key != k
        decreases NBUF - i
      {
        if buf[b].key == k {
          return true, b;
        }
        Follow(s, g.order, i + 1);
        b := buf[b].next;
        i := i + 1;
      }
      found := false;
      forall c | 0 <= c < NBUF ensures s[c].key != k {
        assert c in g.order;
      }
    }

    // From the least recently used end of the ring.
    method FindUnused() returns (b: nat)
      requires Valid()
      requires exists c :: 0 <= c < NBUF && buf[c].refcnt == 0
      ensures b < NBUF && buf[b].refcnt == 0
      ensures forall c :: 0 <= c < NBUF && buf[c].refcnt == 0 ==> g.released[b] <= g.released[c]
    {
      ghost var s, r, i := buf[..], Ring(g.order), NBUF;
      ghost var unused :| 0 <= unused < NBUF && s[unused].refcnt == 0;
      assert unused in g.order;
      hide Counted, OneEach, Coherent, Lru;
      Follow(s, g.order, NBUF + 1);
      b := buf[HEAD].prev;
      while b == HEAD || buf[b].refcnt != 0
        invariant 0 < i <= NBUF && b == r[i]
        invariant forall j :: i <= j < NBUF ==> s[g.order[j]].refcnt != 0
        decreases i
      {
        Follow(s, g.order, i);
        b := buf[b].prev;
        i := i - 1;
      }
      OldestUnused(s, g, i - 1);
    }

    // acquiresleep, once the lock is free.
    method AcquireSleep(b: nat)
      requires Valid() && b < NBUF && !buf[b].locked && g.waiting[b] > 0
      modifies buf, this`g
      ensures Valid() && buf[..] == old(buf[..])[b := old(buf[b]).(locked := true)]
      ensures g == old(g).(waiting := old(g).waiting[b := old(g).waiting[b] - 1])
    {
      hide Linked, Lru, Counted, OneEach, Coherent;
      AcquireKeepsInv(buf[..], g, disk, b);
      ghost var s := buf[..];
      buf[b] := buf[b].(locked := true);
      assert buf[..] == s[b := s[b].(locked := true)];
      g := g.(waiting := g.waiting[b := g.waiting[b] - 1]);
    }

    /** The rest of bread: whoever holds the buffer now sees the latest contents. */
    method Fill(b: nat)
      requires Valid() && b < NBUF && buf[b].locked
      modifies buf
      ensures Valid() && buf[b].valid && buf[b].data == At(g.latest, buf[b].key)
      ensures buf[..] == old(buf[..])[b := old(buf[b]).(data := At(g.latest, buf[b].key), valid := true)]
    {
      if buf[b].valid {
        Cached(buf[..], g, disk, b);
        assert buf[..] == old(buf[..])[b := buf[b]];
      } else {
        hide Linked, Lru, Counted, OneEach, Coherent;
        FillKeepsInv(buf[..], g, disk, b);
        ghost var s := buf[..];
        buf[b] := buf[b].(data := At(disk, buf[b].key));
        buf[b] := buf[b].(valid := true);
        assert buf[..] == s[b := s[b].(data := At(disk, s[b].key), valid := true)];
      }
    }

    /** bread, when no other process holds the block. */
    method Bread(k: Key) returns (b: nat)
      requires Valid() && k.dev >= 1
      requires exists c :: 0 <= c < NBUF && (buf[c].key == k || buf[c].refcnt == 0)
      requires forall c :: 0 <= c < NBUF && buf[c].key == k ==> !buf[c].locked
      modifies buf, this`g
      ensures Valid() && b < NBUF && buf[b].key == k && buf[b].locked && buf[b].valid
      ensures buf[b].data == At(g.latest, k)
      ensures old(buf[b].key) == k || old(buf[b].refcnt) == 0
      ensures g == old(g)
      ensures buf[..] == old(buf[..])[b := buf[b]]
    {
      hide Linked, Lru, Counted, OneEach, Coherent, At;
      b := Bget(k);
      if old(buf[b].key) != k {
        Unreferenced(old(buf[..]), old(g), disk, b);
      }
      AcquireSleep(b);
      hide Inv;
      Fill(b);
      assert g.waiting == old(g).waiting;
    }

    // The holder changes the contents; `latest` is what every later bread must return.
    method Modify(b: nat, data: Block)
      requires Valid() && b < NBUF && buf[b].locked && buf[b].valid
      modifies buf, this`g
      ensures Valid() && buf[..] == old(buf[..])[b := old(buf[b]).(data := data)]
      ensures g == old(g).(dirty := old(g).dirty[b := true], latest := old(g).latest[buf[b].key := data])
    {
      hide Linked, Lru, Counted, OneEach, Coherent;
      ModifyKeepsInv(buf[..], g, disk, b, data);
      ghost var s := buf[..];
      g := g.(dirty := g.dirty[b := true], latest := g.latest[buf[b].key := data]);
      buf[b] := buf[b].(data := data);
      assert buf[..] == s[b := s[b].(data := data)];
    }

    method Bwrite(b: nat)
      requires Valid() && b < NBUF && buf[b].locked && buf[b].valid
      modifies this`disk, this`g, this`writes
      ensures Valid() && disk == old(disk)[buf[b].key := buf[b].data] && writes == old(writes) + [disk]
      ensures g == old(g).(dirty := old(g).dirty[b := false])
    {
      hide Linked, Lru, Counted, OneEach, Coherent;
      WriteKeepsInv(buf[..], g, disk, b);
      disk := disk[buf[b].key := buf[b].data];
      writes := writes + [disk];
      g := g.(dirty := g.dirty[b := false]);
    }

    /** brelse, its first half: a holder lets go only of data on disk or pinned by the log. */
    method ReleaseSleep(b: nat)
      requires Valid() && b < NBUF && buf[b].locked && (g.dirty[b] ==> g.pinned[b])
      modifies buf, this`g
      ensures Valid() && buf[..] == old(buf[..])[b := old(buf[b]).(locked := false)]
      ensures g == old(g).(leaving := old(g).leaving[b := old(g).leaving[b] + 1])
    {
      hide Linked, Lru, Counted, OneEach, Coherent;
      ReleaseKeepsInv(buf[..], g, disk, b);
      ghost var s := buf[..];
      buf[b] := buf[b].(locked := false);
      assert buf[..] == s[b := s[b].(locked := false)];
      g := g.(leaving := g.leaving[b := g.leaving[b] + 1]);
    }

    /** brelse, its second half: the last one out moves the buffer to the front of the ring. */
    method DropReference(b: nat)
      requires Valid() && b < NBUF && g.leaving[b] > 0
      modifies buf, this`g
      ensures Valid() && SameButLinks(old(buf[..])[b := old(buf[b]).(refcnt := buf[b].refcnt)], buf[..])
      ensures buf[b].refcnt == old(buf[b].refcnt) - 1
      ensures g.leaving == old(g).leaving[b := old(g).leaving[b] - 1]
      ensures g == old(g).(leaving := g.leaving, order := g.order, released := g.released, clock := g.clock)
      ensures buf[b].refcnt > 0 ==> g.order == old(g).order && g.released == old(g).released
      ensures buf[b].refcnt == 0 ==>
        && g.order[0] == b && g.released == old(g).released[b := old(g).clock]
        && g.clock == old(g).clock + 1
    {
      ghost var p := Position(g.order, b);
      hide Linked, Lru, Counted, OneEach, Coherent;
      DropKeepsInv(buf[..], g, disk, b);
      ghost var s := buf[..];
      buf[b] := buf[b].(refcnt := buf[b].refcnt - 1);
      assert buf[..] == s[b := s[b].(refcnt := s[b].refcnt - 1)];
      g := g.(leaving := g.leaving[b := g.leaving[b] - 1]);
      if buf[b].refcnt == 0 {
        MoveFront(b, p);
      }
    }

    // No one is waiting for it.
    method MoveFront(b: nat, ghost p: nat)
      requires Valid() && p < NBUF && |g.order| == NBUF && g.order[p] == b < NBUF
      modifies buf, this`g
      ensures Valid() && SameButLinks(old(buf[..]), buf[..])
      ensures g == old(g).(order := ToFront(old(g).order, p), released := old(g).released[b := old(g).clock],
                           clock := old(g).clock + 1)
    {
      hide Linked, Lru, Counted, OneEach, Coherent, Unlinked, Relinked, ToFront, SameButLinks;
      FrontKeepsInv(buf[..], g, disk, p);
      ghost var t := buf[..];
      Unlink(b);
      LinkAfterHead(b);
      SameTransitive(t, Unlinked(t, b), buf[..]);
      g := g.(order := ToFront(g.order, p), released := g.released[b := g.clock], clock := g.clock + 1);
    }

    method Unlink(b: nat)
      requires buf.Length == NBUF + 1 && b < NBUF && buf[b].prev <= NBUF && buf[b].next <= NBUF
      requires buf[b].prev != b && buf[b].next != b
      modifies buf
      ensures buf[..] == Unlinked(old(buf[..]), b)
      ensures SameButLinks(old(buf[..]), buf[..])
    {
      ghost var s := buf[..];
      buf[buf[b].next] := buf[buf[b].next].(prev := buf[b].prev);
      buf[buf[b].prev] := buf[buf[b].prev].(next := buf[b].next);
      assert buf[..] == Unlinked(s, b);
    }

    /** bpin, as log_write calls it: by the holder, for a block new to the transaction. */
    method Bpin(b: nat)
      requires Valid() && b < NBUF && buf[b].locked && !g.pinned[b]
      modifies buf, this`g
      ensures Valid() && buf[..] == old(buf[..])[b := old(buf[b]).(refcnt := old(buf[b].refcnt) + 1)]
      ensures g == old(g).(pinned := old(g).pinned[b := true])
    {
      hide Linked, Lru, Counted, OneEach, Coherent;
      PinKeepsInv(buf[..], g, disk, b);
      ghost var s := buf[..];
      buf[b] := buf[b].(refcnt := buf[b].refcnt + 1);
      assert buf[..] == s[b := s[b].(refcnt := s[b].refcnt + 1)];
      g := g.(pinned := g.pinned[b := true]);
    }

    /** bunpin, as install_trans calls it: by the holder, after bwrite.  The count stays positive. */
    method Bunpin(b: nat)
      requires Valid() && b < NBUF && buf[b].locked && g.pinned[b] && !g.dirty[b]
      modifies buf, this`g
      ensures Valid() && buf[..] == old(buf[..])[b := old(buf[b]).(refcnt := buf[b].refcnt)]
      ensures buf[b].refcnt == old(buf[b].refcnt) - 1 > 0
      ensures g == old(g).(pinned := old(g).pinned[b := false])
    {
      hide Linked, Lru, Counted, OneEach, Coherent;
      UnpinKeepsInv(buf[..], g, disk, b);
      ghost var s := buf[..];
      buf[b] := buf[b].(refcnt := buf[b].refcnt - 1);
      assert buf[..] == s[b := s[b].(refcnt := s[b].refcnt - 1)];
      g := g.(pinned := g.pinned[b := false]);
    }
  }
}
