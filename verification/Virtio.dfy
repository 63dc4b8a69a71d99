/**
 The disk queue of labo2/kernel/virtio_disk.c (sections 2.6 and 5.2 of VIRTIO 1.1): the
 driver's side under vdisk_lock, stretch by stretch, and a device that takes requests in
 order and answers them in any order.
 */
module Virtio {
  const NUM: nat := 8
  const U16: nat := 65536
  const NEXT: nat := 1     // VRING_DESC_F_NEXT
  const WRITE: nat := 2    // VRING_DESC_F_WRITE

  // What a descriptor points to.
  datatype Area = Nothing | Header(write: bool, block: nat) | Data(buf: nat) | StatusOf(head: nat)
  datatype Desc = Desc(area: Area, flags: nat, next: nat)

  // disk.info: the buffer of a request and the status that the device writes.
  datatype Info = Info(b: int, status: int)

  // Where a request is: in the avail ring, with the device, in the used ring, or done.
  datatype Phase = Queued | Taken | Answered | Finished

  // The request whose chain starts at some head.
  datatype Chain = Chain(mid: nat, tail: nat, buf: nat, write: bool, block: nat, req: nat, phase: Phase)

  // flags & VRING_DESC_F_NEXT
  predicate HasNext(flags: nat) {
    flags % 2 == 1
  }

  // ---------- Descriptors ----------

  // The three descriptors of a chain are filled in and linked.
  predicate Formatted(desc: seq<Desc>, h: nat, c: Chain)
    requires |desc| == NUM && h < NUM && c.mid < NUM && c.tail < NUM
  {
    && desc[h] == Desc(Header(c.write, c.block), NEXT, c.mid)
    && desc[c.mid] == Desc(Data(c.buf), if c.write then NEXT else WRITE + NEXT, c.tail)
    && desc[c.tail] == Desc(StatusOf(h), WRITE, 0)
  }

  const NOBODY: nat := NUM

  // `own` names the chain that each descriptor belongs to, or NOBODY.
  predicate Owns(own: seq<nat>, h: nat, c: Chain) {
    && |own| == NUM && h < NUM && c.mid < NUM && c.tail < NUM
    && h != c.mid && h != c.tail && c.mid != c.tail
    && own[h] == h && own[c.mid] == h && own[c.tail] == h
  }

  /**
   The descriptors are split into free ones, those of chains, each in one chain, and those
   in `pending`, allocated but not yet, or no longer, in a chain.
   */
  ghost predicate Split(free: seq<bool>, desc: seq<Desc>, own: seq<nat>, chains: map<nat, Chain>, pending: set<nat>) {
    && |free| == NUM && |desc| == NUM && |own| == NUM
    && (forall h :: h in chains ==> Owns(own, h, chains[h]) && Formatted(desc, h, chains[h]))
    && (forall i :: 0 <= i < NUM && own[i] != NOBODY ==>
          own[i] in chains && (i == own[i] || i == chains[own[i]].mid || i == chains[own[i]].tail))
    && (forall i :: 0 <= i < NUM ==> (free[i] <==> own[i] == NOBODY && i !in pending))
    && (forall i :: i in pending ==> i < NUM && own[i] == NOBODY)
  }

  lemma SplitAllocates(free: seq<bool>, desc: seq<Desc>, own: seq<nat>, chains: map<nat, Chain>, pending: set<nat>,
                       i: nat)
    requires Split(free, desc, own, chains, pending) && i < NUM && free[i]
    ensures i !in pending && Split(free[i := false], desc, own, chains, pending + {i})
  {
    hide Formatted, Owns;
  }

  lemma SplitFrees(free: seq<bool>, desc: seq<Desc>, own: seq<nat>, chains: map<nat, Chain>, pending: set<nat>, i: nat,
                   d: Desc)
    requires Split(free, desc, own, chains, pending) && i in pending
    ensures i < NUM && !free[i] && Split(free[i := true], desc[i := d], own, chains, pending - {i})
  {
    forall h | h in chains ensures Formatted(desc[i := d], h, chains[h]) {
      assert Owns(own, h, chains[h]) && Formatted(desc, h, chains[h]);
    }
    hide Formatted, Owns;
  }

  // Three pending descriptors become a chain.
  lemma SplitLinks(free: seq<bool>, desc: seq<Desc>, own: seq<nat>, chains: map<nat, Chain>, h: nat, c: Chain,
                   e: seq<Desc>)
    requires Split(free, desc, own, chains, {h, c.mid, c.tail}) && h != c.mid && h != c.tail && c.mid != c.tail
    requires |e| == NUM && h < NUM && c.mid < NUM && c.tail < NUM && Formatted(e, h, c)
    requires forall i :: 0 <= i < NUM && i != h && i != c.mid && i != c.tail ==> e[i] == desc[i]
    ensures h !in chains
    ensures Split(free, e, own[h := h][c.mid := h][c.tail := h], chains[h := c], {})
  {
    var o, g := own[h := h][c.mid := h][c.tail := h], chains[h := c];
    forall k | k in chains ensures k != h && Owns(o, k, chains[k]) && Formatted(e, k, chains[k]) {
      assert Owns(own, k, chains[k]) && Formatted(desc, k, chains[k]);
    }
    assert Owns(o, h, c);
    hide Formatted, Owns;
  }

  // A chain ends: its descriptors are pending.
  lemma SplitUnlinks(free: seq<bool>, desc: seq<Desc>, own: seq<nat>, chains: map<nat, Chain>, h: nat)
    requires Split(free, desc, own, chains, {}) && h in chains
    ensures var c := chains[h];
            && h < NUM && c.mid < NUM && c.tail < NUM && h != c.mid && h != c.tail && c.mid != c.tail
            && Formatted(desc, h, c)
            && Split(free, desc, own[h := NOBODY][c.mid := NOBODY][c.tail := NOBODY], chains - {h}, {h, c.mid, c.tail})
  {
    hide Formatted;
    var c := chains[h];
    assert Owns(own, h, c);
    var o := own[h := NOBODY][c.mid := NOBODY][c.tail := NOBODY];
    forall k | k in chains && k != h ensures Owns(o, k, chains[k]) {
      assert Owns(own, k, chains[k]);
    }
    hide Owns;
  }

  ghost function FreeSet(free: seq<bool>): set<nat> {
    set i: nat | i < |free| && free[i]
  }

  ghost function UsedSet(own: seq<nat>): set<nat> {
    set i: nat | i < |own| && own[i] != NOBODY
  }

  // The chains hold the descriptors that `own` gives to them.
  ghost predicate Held(own: seq<nat>, chains: map<nat, Chain>) {
    && |own| == NUM && (forall h :: h in chains ==> Owns(own, h, chains[h]))
    && (forall i :: 0 <= i < NUM && own[i] != NOBODY ==>
          own[i] in chains && (i == own[i] || i == chains[own[i]].mid || i == chains[own[i]].tail))
  }

  lemma ThreeMore(u: set<nat>, a: nat, b: nat, c: nat)
    requires a !in u && b !in u && c !in u && a != b && a != c && b != c
    ensures |u + {a, b, c}| == |u| + 3
  {
    assert u + {a, b, c} == u + {a} + {b} + {c};
  }

  // Without the chain at `h` its three descriptors are in none.
  lemma OneChain(own: seq<nat>, chains: map<nat, Chain>, h: nat, c: Chain)
    requires Held(own, chains) && h in chains && c == chains[h] && Owns(own, h, c)
    ensures Held(own[h := NOBODY][c.mid := NOBODY][c.tail := NOBODY], chains - {h})
  {
    var o := own[h := NOBODY][c.mid := NOBODY][c.tail := NOBODY];
    forall k | k in chains && k != h ensures Owns(o, k, chains[k]) {
      assert Owns(own, k, chains[k]);
    }
    hide Owns;
  }

  lemma ThreeFewer(own: seq<nat>, h: nat, c: Chain)
    requires Owns(own, h, c)
    ensures |UsedSet(own)| == |UsedSet(own[h := NOBODY][c.mid := NOBODY][c.tail := NOBODY])| + 3
  {
    var o := own[h := NOBODY][c.mid := NOBODY][c.tail := NOBODY];
    assert UsedSet(own) == UsedSet(o) + {h, c.mid, c.tail};
    ThreeMore(UsedSet(o), h, c.mid, c.tail);
  }

  // Each chain holds three descriptors.
  lemma {:induction false} ThreeEach(own: seq<nat>, chains: map<nat, Chain>)
    requires Held(own, chains)
    ensures |UsedSet(own)| == 3 * |chains|
    decreases |chains|
  {
    if chains == map[] {
      assert UsedSet(own) == {};
    } else {
      var h :| h in chains;
      assert Owns(own, h, chains[h]);
      OneChain(own, chains, h, chains[h]);
      ThreeFewer(own, h, chains[h]);
      hide Held, UsedSet;
      assert chains.Keys == (chains - {h}).Keys + {h};
      ThreeEach(own[h := NOBODY][chains[h].mid := NOBODY][chains[h].tail := NOBODY], chains - {h});
    }
  }

  lemma {:induction false} CountBelow(all: set<nat>, n: nat)
    requires forall i: nat :: i in all <==> i < n
    ensures |all| == n
  {
    if n == 0 {
      assert all == {};
    } else {
      CountBelow(all - {n - 1}, n - 1);
    }
  }

  // Every descriptor is free, pending or in a chain.
  lemma FreeCount(free: seq<bool>, desc: seq<Desc>, own: seq<nat>, chains: map<nat, Chain>, pending: set<nat>)
    requires Split(free, desc, own, chains, pending)
    ensures |FreeSet(free)| + |pending| + 3 * |chains| == NUM
  {
    hide Owns, Formatted;
    ThreeEach(own, chains);
    assert FreeSet(free) !! pending && FreeSet(free) + pending !! UsedSet(own);
    CountBelow(FreeSet(free) + pending + UsedSet(own), NUM);
  }

  // ---------- Rings ----------

  // idx % NUM
  function Slot(idx: nat): (k: nat)
    ensures k < NUM
  {
    idx % NUM
  }

  function Inc(idx: nat): (n: nat)
    ensures n < U16
  {
    (idx + 1) % U16
  }

  // How many entries are between two 16-bit indices.
  function Ahead(tail: nat, head: nat): nat {
    (head + U16 - tail) % U16
  }

  // The entries of a ring from index `tail` up to `head` are `q`.
  ghost predicate Holds(ring: seq<nat>, tail: nat, head: nat, q: seq<nat>) {
    && |ring| == NUM && tail < U16 && head < U16 && |q| <= NUM && Ahead(tail, head) == |q|
    && forall k :: 0 <= k < |q| ==> q[k] == ring[Slot(tail + k)]
  }

  lemma SlotWraps(n: nat)
    ensures n >= U16 ==> Slot(n - U16) == Slot(n)
  {
  }

  lemma SlotsDiffer(from: nat, j: nat, k: nat)
    requires j < k < j + NUM
    ensures Slot(from + j) != Slot(from + k)
  {
  }

  lemma AheadNext(tail: nat, head: nat)
    requires tail < U16 && head < U16 && Ahead(tail, head) <= NUM
    ensures Ahead(tail, head) < NUM ==> Ahead(tail, Inc(head)) == Ahead(tail, head) + 1
    ensures Ahead(tail, head) > 0 ==> Ahead(Inc(tail), head) == Ahead(tail, head) - 1
    ensures Slot(head) == Slot(tail + Ahead(tail, head))
    ensures tail == head <==> Ahead(tail, head) == 0
  {
    hide Ahead, Inc, Slot;
    AheadIs(tail, head);
    IncIs(tail);
    IncIs(head);
    AheadIs(tail, Inc(head));
    AheadIs(Inc(tail), head);
    SlotWraps(tail + Ahead(tail, head));
  }

  lemma AheadIs(tail: nat, head: nat)
    requires tail < U16 && head < U16
    ensures Ahead(tail, head) == if head >= tail then head - tail else head + U16 - tail
  {
  }

  lemma IncIs(idx: nat)
    requires idx < U16
    ensures Inc(idx) == if idx + 1 == U16 then 0 else idx + 1
  {
  }

  // ring[idx % NUM] = x; idx += 1
  lemma HoldsPush(ring: seq<nat>, tail: nat, head: nat, q: seq<nat>, x: nat)
    requires Holds(ring, tail, head, q) && |q| < NUM
    ensures Holds(ring[Slot(head) := x], tail, Inc(head), q + [x])
  {
    AheadNext(tail, head);
    hide Slot, Inc, Ahead;
    var r, p := ring[Slot(head) := x], q + [x];
    forall k | 0 <= k < |p| ensures p[k] == r[Slot(tail + k)] {
      if k < |q| {
        SlotsDiffer(tail, k, |q|);
      }
    }
  }

  lemma HoldsPop(ring: seq<nat>, tail: nat, head: nat, q: seq<nat>)
    requires Holds(ring, tail, head, q) && q != []
    ensures ring[Slot(tail)] == q[0] && Holds(ring, Inc(tail), head, q[1..])
  {
    hide Slot, Inc, Ahead;
    AheadNext(tail, head);
    assert q[0] == ring[Slot(tail + 0)];
    forall k | 0 <= k < |q| - 1
      ensures q[1..][k] == ring[Slot(Inc(tail) + k)]
    {
      NextSlot(tail, k);
      assert q[k + 1] == ring[Slot(tail + (k + 1))];
    }
    IncIs(tail);
  }

  lemma NextSlot(tail: nat, k: nat)
    requires tail < U16
    ensures Slot(Inc(tail) + k) == Slot(tail + (k + 1))
  {
    hide Slot;
    IncIs(tail);
    SlotWraps(tail + 1 + k);
    hide Inc;
  }

  // ---------- Requests ----------

  predicate Distinct(q: seq<nat>) {
    forall j, k :: 0 <= j < k < |q| ==> q[j] != q[k]
  }

  // `q` is the requests in the given phase.
  ghost predicate InPhase(chains: map<nat, Chain>, q: seq<nat>, ph: Phase) {
    && Distinct(q)
    && (forall k :: 0 <= k < |q| ==> q[k] in chains && chains[q[k]].phase == ph)
    && (forall h :: h in chains && chains[h].phase == ph ==> h in q)
  }

  lemma {:induction false} DistinctBelow(q: seq<nat>, n: nat)
    requires Distinct(q) && forall k :: 0 <= k < |q| ==> q[k] < n
    ensures |q| <= n
  {
    if q != [] {
      assert q[0] < n;
      if k: nat :| k < |q| && q[k] == n - 1 {
        var r := q[..k] + q[k + 1..];
        assert forall j :: 0 <= j < |r| ==> r[j] == q[if j < k then j else j + 1];
        DistinctBelow(r, n - 1);
      } else {
        DistinctBelow(q, n - 1);
      }
    }
  }

  // A chain that is not in `q` leaves room for itself.
  lemma RoomFor(q: seq<nat>, h: nat)
    requires Distinct(q) && h < NUM && h !in q && forall k :: 0 <= k < |q| ==> q[k] < NUM
    ensures |q| < NUM
  {
    var r := q + [h];
    assert Distinct(r) by {
      forall j, k | 0 <= j < k < |r| ensures r[j] != r[k] {
      }
    }
    DistinctBelow(r, NUM);
  }

  // A request that is not finished has its buffer recorded and marked busy.
  ghost predicate Recorded(chains: map<nat, Chain>, info: seq<Info>, busy: set<nat>) {
    && |info| == NUM
    && (forall h :: h in chains ==> h < NUM && info[h].b == chains[h].buf)
    && (forall h :: h in chains ==> (chains[h].phase.Finished? <==> chains[h].buf !in busy))
    && (forall h, g :: h in chains && g in chains && h != g ==> chains[h].buf != chains[g].buf)
    && (forall h :: h in chains && chains[h].phase.Answered? ==> info[h].status == 0)
  }

  // Every request ever made is either open, in one chain, or in `done`, once.
  ghost predicate Accounted(chains: map<nat, Chain>, open: map<nat, nat>, done: seq<nat>, made: nat) {
    && (forall r :: r in open ==> r < made && open[r] in chains && chains[open[r]].req == r && !chains[open[r]].phase.Finished?)
    && (forall h :: h in chains ==> chains[h].req < made)
    && (forall h :: h in chains ==>
          if chains[h].phase.Finished? then chains[h].req in done else chains[h].req in open && open[chains[h].req] == h)
    && Distinct(done) && (forall k :: 0 <= k < |done| ==> done[k] < made)
    && (forall r :: 0 <= r < made ==> (r in open) != (r in done))
  }

  ghost predicate Tracked(chains: map<nat, Chain>, info: seq<Info>, busy: set<nat>, open: map<nat, nat>,
                          done: seq<nat>, made: nat) {
    Recorded(chains, info, busy) && Accounted(chains, open, done, made)
  }

  // The chain of `h` moves on to another phase.
  function Moved(chains: map<nat, Chain>, h: nat, ph: Phase): map<nat, Chain>
    requires h in chains
  {
    chains[h := chains[h].(phase := ph)]
  }

  lemma MovedSplit(free: seq<bool>, desc: seq<Desc>, own: seq<nat>, chains: map<nat, Chain>, pending: set<nat>, h: nat,
                   ph: Phase)
    requires Split(free, desc, own, chains, pending) && h in chains
    ensures Split(free, desc, own, Moved(chains, h, ph), pending)
  {
    var g := Moved(chains, h, ph);
    forall k | k in g ensures Owns(own, k, g[k]) && Formatted(desc, k, g[k]) {
      assert Owns(own, k, chains[k]) && Formatted(desc, k, chains[k]);
    }
    hide Formatted, Owns;
  }

  // A chain leaves one queue or joins another.
  lemma LeavesFront(chains: map<nat, Chain>, q: seq<nat>, ph: Phase, next: Phase)
    requires InPhase(chains, q, ph) && q != [] && ph != next
    ensures q[0] in chains && InPhase(Moved(chains, q[0], next), q[1..], ph)
  {
    var h := q[0];
    forall k | 0 <= k < |q| - 1 ensures q[1..][k] != h {
      assert q[1..][k] == q[k + 1];
    }
    forall g | g in chains && chains[g].phase == ph && g != h ensures g in q[1..] {
      var k :| 0 <= k < |q| && q[k] == g;
      assert q[1..][k - 1] == g;
    }
  }

  lemma JoinsBack(chains: map<nat, Chain>, q: seq<nat>, ph: Phase, h: nat)
    requires InPhase(chains, q, ph) && h in chains && chains[h].phase != ph
    ensures InPhase(Moved(chains, h, ph), q + [h], ph)
  {
    var g, p := Moved(chains, h, ph), q + [h];
    assert h !in q;
    forall k | k in g && g[k].phase == ph ensures k in p {
      if k != h {
        assert k in q;
      }
    }
  }

  lemma Unaffected(chains: map<nat, Chain>, q: seq<nat>, ph: Phase, h: nat, next: Phase)
    requires InPhase(chains, q, ph) && h in chains && chains[h].phase != ph && next != ph
    ensures InPhase(Moved(chains, h, next), q, ph)
  {
  }

  // A new request.
  lemma TrackedNew(chains: map<nat, Chain>, info: seq<Info>, busy: set<nat>, open: map<nat, nat>, done: seq<nat>,
                   made: nat, h: nat, c: Chain)
    requires Tracked(chains, info, busy, open, done, made) && h !in chains && h < NUM
    requires c.req == made && c.phase.Queued? && forall k :: k in chains ==> chains[k].buf != c.buf
    ensures Tracked(chains[h := c], info[h := Info(c.buf, 0xff)], busy + {c.buf}, open[made := h], done, made + 1)
  {
    hide Recorded, Accounted;
    RecordedNew(chains, info, busy, h, c);
    AccountedNew(chains, open, done, made, h, c);
  }

  lemma RecordedNew(chains: map<nat, Chain>, info: seq<Info>, busy: set<nat>, h: nat, c: Chain)
    requires Recorded(chains, info, busy) && h !in chains && h < NUM
    requires c.phase.Queued? && forall k :: k in chains ==> chains[k].buf != c.buf
    ensures Recorded(chains[h := c], info[h := Info(c.buf, 0xff)], busy + {c.buf})
  {
  }

  lemma AccountedNew(chains: map<nat, Chain>, open: map<nat, nat>, done: seq<nat>, made: nat, h: nat, c: Chain)
    requires Accounted(chains, open, done, made) && h !in chains && c.req == made && c.phase.Queued?
    ensures Accounted(chains[h := c], open[made := h], done, made + 1)
  {
    hide Distinct;
  }

  // A request moves on, short of its end.
  lemma TrackedMoved(chains: map<nat, Chain>, info: seq<Info>, busy: set<nat>, open: map<nat, nat>, done: seq<nat>,
                     made: nat, h: nat, ph: Phase)
    requires Tracked(chains, info, busy, open, done, made) && h in chains && !chains[h].phase.Finished? && !ph.Finished?
    ensures h < NUM
    ensures Tracked(Moved(chains, h, ph), if ph.Answered? then info[h := info[h].(status := 0)] else info, busy, open, done, made)
  {
    hide Recorded, Accounted;
    RecordedMoved(chains, info, busy, h, ph);
    AccountedMoved(chains, open, done, made, h, ph);
  }

  lemma RecordedMoved(chains: map<nat, Chain>, info: seq<Info>, busy: set<nat>, h: nat, ph: Phase)
    requires Recorded(chains, info, busy) && h in chains && !chains[h].phase.Finished? && !ph.Finished?
    ensures h < NUM && |info| == NUM
    ensures Recorded(Moved(chains, h, ph), if ph.Answered? then info[h := info[h].(status := 0)] else info, busy)
  {
  }

  lemma AccountedMoved(chains: map<nat, Chain>, open: map<nat, nat>, done: seq<nat>, made: nat, h: nat, ph: Phase)
    requires Accounted(chains, open, done, made) && h in chains && !chains[h].phase.Finished? && !ph.Finished?
    ensures Accounted(Moved(chains, h, ph), open, done, made)
  {
    hide Distinct;
  }

  // The interrupt handler finishes a request: once, since it was open.
  lemma TrackedDone(chains: map<nat, Chain>, info: seq<Info>, busy: set<nat>, open: map<nat, nat>, done: seq<nat>,
                    made: nat, h: nat)
    requires Tracked(chains, info, busy, open, done, made) && h in chains && chains[h].phase.Answered?
    ensures chains[h].req !in done && h < NUM && |info| == NUM && info[h] == Info(chains[h].buf, 0)
    ensures Tracked(Moved(chains, h, Finished), info, busy - {chains[h].buf}, open - {chains[h].req},
            done + [chains[h].req], made)
  {
    AccountedDone(chains, open, done, made, h);
    hide Accounted;
  }

  lemma AccountedDone(chains: map<nat, Chain>, open: map<nat, nat>, done: seq<nat>, made: nat, h: nat)
    requires Accounted(chains, open, done, made) && h in chains && chains[h].phase.Answered?
    ensures chains[h].req !in done
    ensures Accounted(Moved(chains, h, Finished), open - {chains[h].req}, done + [chains[h].req], made)
  {
    var c := chains[h];
    IsOpen(chains, open, done, made, h);
    DoneOnce(done, c.req);
    hide Distinct;
    OneDone(done, c.req, made);
    OthersOpen(chains, open, done, made, h);
    var g, d, o := Moved(chains, h, Finished), done + [c.req], open - {c.req};
    assert forall k :: k in g && k != h ==> g[k] == chains[k];
    assert forall r :: 0 <= r < made ==> (r in o) != (r in d);
    assert forall r :: r in o ==> o[r] in g && g[o[r]].req == r && !g[o[r]].phase.Finished?;
  }

  lemma IsOpen(chains: map<nat, Chain>, open: map<nat, nat>, done: seq<nat>, made: nat, h: nat)
    requires Accounted(chains, open, done, made) && h in chains && chains[h].phase.Answered?
    ensures chains[h].req in open && open[chains[h].req] == h && chains[h].req < made && chains[h].req !in done
    ensures Distinct(done)
  {
    hide Distinct;
  }

  lemma OneDone(done: seq<nat>, r: nat, made: nat)
    requires r < made && forall k :: 0 <= k < |done| ==> done[k] < made
    ensures forall k :: 0 <= k < |done + [r]| ==> (done + [r])[k] < made
    ensures forall x :: x in done + [r] <==> x in done || x == r
  {
  }

  // The other requests under way are others.
  lemma OthersOpen(chains: map<nat, Chain>, open: map<nat, nat>, done: seq<nat>, made: nat, h: nat)
    requires Accounted(chains, open, done, made) && h in chains && chains[h].phase.Answered?
    ensures forall k :: k in chains && k != h && !chains[k].phase.Finished? ==> chains[k].req != chains[h].req
    ensures forall r :: r in open && r != chains[h].req ==> open[r] != h
  {
    hide Distinct;
  }

  lemma DoneOnce(done: seq<nat>, r: nat)
    requires Distinct(done) && r !in done
    ensures Distinct(done + [r])
  {
    var d := done + [r];
    forall j, k | 0 <= j < k < |d| ensures d[j] != d[k] {
    }
  }

  // The waiting process frees its chain.
  lemma TrackedGone(chains: map<nat, Chain>, info: seq<Info>, busy: set<nat>, open: map<nat, nat>, done: seq<nat>,
                    made: nat, h: nat, x: Info)
    requires Tracked(chains, info, busy, open, done, made) && h in chains && chains[h].phase.Finished?
    ensures h < NUM && Tracked(chains - {h}, info[h := x], busy, open, done, made)
  {
    hide Recorded, Accounted;
    RecordedGone(chains, info, busy, h, x);
    AccountedGone(chains, open, done, made, h);
  }

  lemma RecordedGone(chains: map<nat, Chain>, info: seq<Info>, busy: set<nat>, h: nat, x: Info)
    requires Recorded(chains, info, busy) && h in chains
    ensures h < NUM && |info| == NUM && Recorded(chains - {h}, info[h := x], busy)
  {
  }

  lemma AccountedGone(chains: map<nat, Chain>, open: map<nat, nat>, done: seq<nat>, made: nat, h: nat)
    requires Accounted(chains, open, done, made) && h in chains && chains[h].phase.Finished?
    ensures Accounted(chains - {h}, open, done, made)
  {
    hide Distinct;
  }

  lemma InPhaseNew(chains: map<nat, Chain>, q: seq<nat>, ph: Phase, h: nat, c: Chain)
    requires InPhase(chains, q, ph) && h !in chains
    ensures InPhase(chains[h := c], if c.phase == ph then q + [h] else q, ph)
  {
    var p := if c.phase == ph then q + [h] else q;
    assert h !in q;
    forall k | k in chains[h := c] && chains[h := c][k].phase == ph ensures k in p {
      if k != h {
        assert k in q;
      }
    }
  }

  lemma InPhaseGone(chains: map<nat, Chain>, q: seq<nat>, ph: Phase, h: nat)
    requires InPhase(chains, q, ph) && h in chains && chains[h].phase != ph
    ensures InPhase(chains - {h}, q, ph)
  {
  }

  // Heads of chains are descriptors; a queue never fills its ring.
  lemma QueueFits(free: seq<bool>, desc: seq<Desc>, own: seq<nat>, chains: map<nat, Chain>, q: seq<nat>, ph: Phase,
                  pending: set<nat>, h: nat)
    requires Split(free, desc, own, chains, pending) && InPhase(chains, q, ph) && h < NUM && h !in q
    ensures |q| < NUM
  {
    forall k | 0 <= k < |q| ensures q[k] < NUM {
      assert Owns(own, q[k], chains[q[k]]);
    }
    hide Split, InPhase;
    InPhaseDistinct(chains, q, ph);
    RoomFor(q, h);
  }

  lemma InPhaseDistinct(chains: map<nat, Chain>, q: seq<nat>, ph: Phase)
    requires InPhase(chains, q, ph)
    ensures Distinct(q)
  {
  }

  // ---------- Rings and requests together ----------

  // The history of the queue: which chain each descriptor belongs to, the chains, the
  // contents of the two rings, and the requests open, done and made.
  datatype Book = Book(own: seq<nat>, chains: map<nat, Chain>, queued: seq<nat>, answered: seq<nat>,
                       open: map<nat, nat>, done: seq<nat>, made: nat)

  // All that the queue holds but for the descriptors.
  ghost predicate Rest(avail: seq<nat>, seen: nat, availIdx: nat, used: seq<nat>, usedIdx: nat, usedDev: nat,
                       info: seq<Info>, busy: set<nat>, g: Book) {
    && Holds(avail, seen, availIdx, g.queued) && Holds(used, usedIdx, usedDev, g.answered)
    && InPhase(g.chains, g.queued, Queued) && InPhase(g.chains, g.answered, Answered)
    && Tracked(g.chains, info, busy, g.open, g.done, g.made)
  }

  lemma RestShape(avail: seq<nat>, seen: nat, availIdx: nat, used: seq<nat>, usedIdx: nat, usedDev: nat,
                  info: seq<Info>, busy: set<nat>, g: Book)
    requires Rest(avail, seen, availIdx, used, usedIdx, usedDev, info, busy, g)
    ensures |avail| == |used| == |info| == NUM
    ensures seen == availIdx <==> g.queued == []
    ensures usedIdx == usedDev <==> g.answered == []
    ensures forall h :: h in g.chains ==> h < NUM
    ensures forall k :: 0 <= k < |g.answered| ==> g.answered[k] in g.chains && g.chains[g.answered[k]].phase.Answered?
  {
    AheadNext(seen, availIdx);
    AheadNext(usedIdx, usedDev);
    hide Ahead;
  }

  // The request `c` goes out, at descriptor `h`.
  function Submitted(g: Book, h: nat, c: Chain): Book
    requires h < |g.own| && c.mid < |g.own| && c.tail < |g.own|
  {
    Book(g.own[h := h][c.mid := h][c.tail := h], g.chains[h := c], g.queued + [h], g.answered, g.open[g.made := h],
      g.done, g.made + 1)
  }

  lemma RestStart(free: seq<bool>, desc: seq<Desc>, h: nat, c: Chain,
                  avail: seq<nat>, seen: nat, availIdx: nat, used: seq<nat>, usedIdx: nat, usedDev: nat,
                  info: seq<Info>, busy: set<nat>, g: Book)
    requires Rest(avail, seen, availIdx, used, usedIdx, usedDev, info, busy, g)
    requires Split(free, desc, g.own, g.chains, {h, c.mid, c.tail})
    requires c.req == g.made && c.phase.Queued? && forall k :: k in g.chains ==> g.chains[k].buf != c.buf
    ensures h < NUM && c.mid < NUM && c.tail < NUM && |g.own| == NUM && |avail| == |info| == NUM && h !in g.chains
    ensures Rest(avail[Slot(availIdx) := h], seen, Inc(availIdx), used, usedIdx, usedDev,
            info[h := Info(c.buf, 0xff)], busy + {c.buf}, Submitted(g, h, c))
  {
    hide Split, Holds, InPhase, Tracked;
    SplitShape(free, desc, g.own, g.chains, {h, c.mid, c.tail});
    RingRoom(free, desc, g.own, g.chains, g.queued, Queued, h, c.mid, c.tail, avail, info, busy, g.open, g.done,
             g.made, seen, availIdx);
    HoldsPush(avail, seen, availIdx, g.queued, h);
    TrackedNew(g.chains, info, busy, g.open, g.done, g.made, h, c);
    InPhaseNew(g.chains, g.queued, Queued, h, c);
    InPhaseNew(g.chains, g.answered, Answered, h, c);
  }

  // The request at `h` is over.
  function Released(g: Book, h: nat): Book
    requires h in g.chains && h < |g.own| && g.chains[h].mid < |g.own| && g.chains[h].tail < |g.own|
  {
    g.(own := g.own[h := NOBODY][g.chains[h].mid := NOBODY][g.chains[h].tail := NOBODY], chains := g.chains - {h})
  }

  lemma RestFinish(free: seq<bool>, desc: seq<Desc>, h: nat, x: Info,
                   avail: seq<nat>, seen: nat, availIdx: nat, used: seq<nat>, usedIdx: nat, usedDev: nat,
                   info: seq<Info>, busy: set<nat>, g: Book)
    requires Rest(avail, seen, availIdx, used, usedIdx, usedDev, info, busy, g) && h in g.chains
    requires g.chains[h].buf !in busy
    requires Split(free, desc, g.own, g.chains, {})
    ensures h < NUM && |info| == NUM && |desc| == NUM && |g.own| == NUM && g.chains[h].req in g.done
    ensures var c := g.chains[h];
            && c.mid < NUM && c.tail < NUM && h != c.mid && h != c.tail && c.mid != c.tail && Formatted(desc, h, c)
            && Split(free, desc, Released(g, h).own, Released(g, h).chains, {h, c.mid, c.tail})
    ensures Rest(avail, seen, availIdx, used, usedIdx, usedDev, info[h := x], busy, Released(g, h))
  {
    hide Holds, InPhase, Tracked, Split, Formatted;
    SplitShape(free, desc, g.own, g.chains, {});
    SplitUnlinks(free, desc, g.own, g.chains, h);
    FinishedMeans(g.chains, info, busy, g.open, g.done, g.made, h);
    TrackedGone(g.chains, info, busy, g.open, g.done, g.made, h, x);
    InPhaseGone(g.chains, g.queued, Queued, h);
    InPhaseGone(g.chains, g.answered, Answered, h);
  }

  // The oldest answer is handled.
  function Handled(g: Book): Book
    requires g.answered != [] && g.answered[0] in g.chains
  {
    var id := g.answered[0];
    var r := g.chains[id].req;
    g.(chains := Moved(g.chains, id, Finished), answered := g.answered[1..], open := g.open - {r}, done := g.done + [r])
  }

  // One turn of the loop of virtio_disk_intr.
  lemma RestIntr(free: seq<bool>, desc: seq<Desc>,
                 avail: seq<nat>, seen: nat, availIdx: nat, used: seq<nat>, usedIdx: nat, usedDev: nat,
                 info: seq<Info>, busy: set<nat>, g: Book)
    requires Rest(avail, seen, availIdx, used, usedIdx, usedDev, info, busy, g) && usedIdx != usedDev
    requires Split(free, desc, g.own, g.chains, {})
    ensures g.answered != [] && |used| == |info| == NUM && used[Slot(usedIdx)] == g.answered[0] < NUM
    ensures g.answered[0] in g.chains
    ensures var c := g.chains[g.answered[0]];
            && info[g.answered[0]] == Info(c.buf, 0) && c.req !in g.done
            && Rest(avail, seen, availIdx, used, Inc(usedIdx), usedDev, info, busy - {c.buf}, Handled(g))
            && Split(free, desc, Handled(g).own, Handled(g).chains, {})
  {
    RestShape(avail, seen, availIdx, used, usedIdx, usedDev, info, busy, g);
    hide Holds, InPhase, Tracked, Split;
    HoldsPop(used, usedIdx, usedDev, g.answered);
    TrackedDone(g.chains, info, busy, g.open, g.done, g.made, g.answered[0]);
    LeavesFront(g.chains, g.answered, Answered, Finished);
    Unaffected(g.chains, g.queued, Queued, g.answered[0], Finished);
    MovedSplit(free, desc, g.own, g.chains, {}, g.answered[0], Finished);
  }

  lemma RestTake(free: seq<bool>, desc: seq<Desc>,
                 avail: seq<nat>, seen: nat, availIdx: nat, used: seq<nat>, usedIdx: nat, usedDev: nat,
                 info: seq<Info>, busy: set<nat>, g: Book)
    requires Rest(avail, seen, availIdx, used, usedIdx, usedDev, info, busy, g) && seen != availIdx
    requires Split(free, desc, g.own, g.chains, {})
    ensures g.queued != [] && |avail| == NUM && avail[Slot(seen)] == g.queued[0] && g.queued[0] in g.chains
    ensures g.chains[g.queued[0]].phase == Queued
    ensures var h := g.queued[0];
            var e := g.(chains := Moved(g.chains, h, Taken), queued := g.queued[1..]);
            && Rest(avail, Inc(seen), availIdx, used, usedIdx, usedDev, info, busy, e)
              && Split(free, desc, e.own, e.chains, {})
            && |desc| == NUM && h < NUM && g.chains[h].mid < NUM && g.chains[h].tail < NUM
              && Formatted(desc, h, g.chains[h])
  {
    RestShape(avail, seen, availIdx, used, usedIdx, usedDev, info, busy, g);
    AllInPhase(g.chains, g.queued, Queued);
    hide Holds, InPhase, Tracked, Split, Formatted;
    HoldsPop(avail, seen, availIdx, g.queued);
    ChainFormatted(free, desc, g.own, g.chains, g.queued[0]);
    LeavesFront(g.chains, g.queued, Queued, Taken);
    Unaffected(g.chains, g.answered, Answered, g.queued[0], Taken);
    TrackedMoved(g.chains, info, busy, g.open, g.done, g.made, g.queued[0], Taken);
    MovedSplit(free, desc, g.own, g.chains, {}, g.queued[0], Taken);
  }

  lemma RestAnswer(free: seq<bool>, desc: seq<Desc>, h: nat,
                   avail: seq<nat>, seen: nat, availIdx: nat, used: seq<nat>, usedIdx: nat, usedDev: nat,
                   info: seq<Info>, busy: set<nat>, g: Book)
    requires Rest(avail, seen, availIdx, used, usedIdx, usedDev, info, busy, g)
    requires Split(free, desc, g.own, g.chains, {}) && h in g.chains && g.chains[h].phase == Taken
    ensures h < NUM && |used| == |info| == NUM
    ensures var e := g.(chains := Moved(g.chains, h, Answered), answered := g.answered + [h]);
            && Rest(avail, seen, availIdx, used[Slot(usedDev) := h], usedIdx, Inc(usedDev),
              info[h := info[h].(status := 0)], busy, e)
            && Split(free, desc, e.own, e.chains, {})
  {
    RestShape(avail, seen, availIdx, used, usedIdx, usedDev, info, busy, g);
    hide Holds, InPhase, Tracked, Split;
    NotQueued(free, desc, g.own, g.chains, g.answered, Answered, h);
    HoldsPush(used, usedIdx, usedDev, g.answered, h);
    TrackedMoved(g.chains, info, busy, g.open, g.done, g.made, h, Answered);
    JoinsBack(g.chains, g.answered, Answered, h);
    Unaffected(g.chains, g.queued, Queued, h, Answered);
    MovedSplit(free, desc, g.own, g.chains, {}, h, Answered);
  }

  // ---------- The driver and its device ----------

  class Disk {
    const free: array<bool>
    const desc: array<Desc>
    const info: array<Info>
    const avail: array<nat>
    const used: array<nat>
    var availIdx: nat
    var usedIdx: nat            // where the driver has looked
    var usedDev: nat            // disk.used->idx, the device's
    var seen: nat               // up to where the device has looked in the avail ring
    var busy: set<nat>          // the buffers with b->disk == 1
    ghost var g: Book

    ghost predicate Valid()
      reads this, free, desc, info, avail, used
    {
      avail != used && ValidRest() && Split(free[..], desc[..], g.own, g.chains, {})
    }

    ghost predicate ValidRest()
      reads this, info, avail, used
    {
      Rest(avail[..], seen, availIdx, used[..], usedIdx, usedDev, info[..], busy, g)
    }

    /** alloc_desc: a free descriptor, or -1. */
    method AllocDesc(ghost pending: set<nat>) returns (i: int)
      requires Split(free[..], desc[..], g.own, g.chains, pending)
      modifies free
      ensures -1 <= i < NUM
      ensures i == -1 ==> free[..] == old(free[..]) && FreeSet(free[..]) == {}
      ensures i >= 0 ==> i !in pending && old(free[..])[i] && Split(free[..], desc[..], g.own, g.chains, pending + {i})
    {
      assert |free[..]| == NUM;
      hide Split;
      var k := 0;
      while k < NUM
        invariant k <= NUM && free[..] == old(free[..]) && forall j :: 0 <= j < k ==> !free[..][j]
      {
        if free[k] {
          SplitAllocates(free[..], desc[..], g.own, g.chains, pending, k);
          ghost var f := free[..][k := false];
          free[k] := false;
          assert free[..] == f;
          return k;
        }
        k := k + 1;
      }
      i := -1;
    }

    /** free_desc: the descriptor is in use, or it would panic. */
    method FreeDesc(i: nat, ghost pending: set<nat>)
      requires Split(free[..], desc[..], g.own, g.chains, pending) && i in pending
      modifies free, desc
      ensures Split(free[..], desc[..], g.own, g.chains, pending - {i})
      ensures forall j :: 0 <= j < NUM && j != i ==>
        |desc[..]| == |old(desc[..])| == NUM && desc[..][j] == old(desc[..])[j]
    {
      SplitFrees(free[..], desc[..], g.own, g.chains, pending, i, Desc(Nothing, 0, 0));
      assert |free[..]| == NUM && |desc[..]| == NUM;
      hide Split;
      assert i < NUM && !free[i];    // otherwise a panic
      ghost var f, d := free[..][i := true], desc[..][i := Desc(Nothing, 0, 0)];
      desc[i] := Desc(Nothing, 0, 0);
      free[i] := true;
      assert free[..] == f && desc[..] == d;
    }

    /** alloc3_desc: three descriptors if three are free, or none. */
    method Alloc3() returns (ok: bool, i: nat, j: nat, k: nat)
      requires Split(free[..], desc[..], g.own, g.chains, {})
      modifies free, desc
      ensures ok ==> i != j && i != k && j != k && Split(free[..], desc[..], g.own, g.chains, {i, j, k})
      ensures !ok ==> Split(free[..], desc[..], g.own, g.chains, {})
      ensures ok <==> |FreeSet(old(free[..]))| >= 3
      ensures |FreeSet(free[..])| == |FreeSet(old(free[..]))| - if ok then 3 else 0
    {
      hide Split, FreeSet;
      FreeCount(free[..], desc[..], g.own, g.chains, {});
      var a := AllocDesc({});
      if a < 0 {
        return false, 0, 0, 0;
      }
      assert {} + {a} == {a};
      FreeCount(free[..], desc[..], g.own, g.chains, {a});
      var b := AllocDesc({a});
      if b < 0 {
        FreeDesc(a, {a});
        assert {a} - {a} == {};
        FreeCount(free[..], desc[..], g.own, g.chains, {});
        return false, 0, 0, 0;
      }
      assert {a} + {b} == {a, b};
      FreeCount(free[..], desc[..], g.own, g.chains, {a, b});
      var c := AllocDesc({a, b});
      if c < 0 {
        FreeDesc(a, {a, b});
        FreeDesc(b, {a, b} - {a});
        assert {a, b} - {a} - {b} == {};
        FreeCount(free[..], desc[..], g.own, g.chains, {});
        return false, 0, 0, 0;
      }
      assert {a, b} + {c} == {a, b, c};
      FreeCount(free[..], desc[..], g.own, g.chains, {a, b, c});
      ok, i, j, k := true, a, b, c;
    }

    // The three descriptors of a request, filled in.
    method Format(h: nat, m: nat, t: nat, b: nat, block: nat, write: bool, ghost c: Chain)
      requires Split(free[..], desc[..], g.own, g.chains, {h, m, t}) && h != m && h != t && m != t
      requires c.mid == m && c.tail == t && c.buf == b && c.block == block && c.write == write
      modifies desc
      ensures h < NUM && m < NUM && t < NUM && |g.own| == NUM
      ensures Split(free[..], desc[..], Submitted(g, h, c).own, Submitted(g, h, c).chains, {})
    {
      PendingBelow(free[..], desc[..], g.own, g.chains, {h, m, t});
      ghost var d := desc[..];
      desc[h] := Desc(Header(write, block), NEXT, m);
      desc[m] := Desc(Data(b), if write then 0 + NEXT else WRITE + NEXT, t);
      desc[t] := Desc(StatusOf(h), WRITE, 0);
      hide Split;
      SplitLinks(free[..], d, g.own, g.chains, h, c, desc[..]);
    }

    /**
     virtio_disk_rw up to its wait: a request for buffer `b` is in the avail ring, or there
     were no three free descriptors, two requests having their chains, and it sleeps.
     */
    method Start(b: nat, block: nat, write: bool) returns (ok: bool, h: nat)
      requires Valid() && forall k :: k in g.chains ==> g.chains[k].buf != b
      modifies this, free, desc, info, avail
      ensures Valid()
      ensures ok <==> |FreeSet(old(free[..]))| >= 3
      ensures ok <==> |old(g).chains| < 2
      ensures !ok ==> g == old(g) && busy == old(busy)
      ensures ok ==>
        && h !in old(g).chains && h in g.chains && g.chains == old(g).chains[h := g.chains[h]]
        && g.made == old(g).made + 1 && g.done == old(g).done && g.queued == old(g).queued + [h]
          && g.answered == old(g).answered
        && g.chains[h].buf == b && g.chains[h].block == block && g.chains[h].write == write
        && g.chains[h].req == old(g).made && g.chains[h].phase == Queued
    {
      hide Split, Rest, FreeSet;
      FreeCount(free[..], desc[..], g.own, g.chains, {});
      var m, t;
      ok, h, m, t := Alloc3();
      if ok {
        Submit(b, block, write, h, m, t);
      }
    }

    method Submit(b: nat, block: nat, write: bool, h: nat, m: nat, t: nat)
      requires avail != used && h != m && h != t && m != t && ValidRest()
      requires Split(free[..], desc[..], g.own, g.chains, {h, m, t}) && forall k :: k in g.chains ==>
        g.chains[k].buf != b
      modifies this`g, this`busy, this`availIdx, desc, info, avail
      ensures Valid() && h !in old(g).chains && h < |old(g).own| && m < |old(g).own| && t < |old(g).own|
      ensures g == Submitted(old(g), h, Chain(m, t, b, write, block, old(g).made, Queued))
    {
      hide Split, Rest, Formatted, Slot, Inc, Submitted;
      ghost var c := Chain(m, t, b, write, block, g.made, Queued);
      RestStart(free[..], desc[..], h, c, avail[..], seen, availIdx, used[..], usedIdx, usedDev, info[..], busy, g);
      ghost var a1, i1 := avail[..][Slot(availIdx) := h], info[..][h := Info(c.buf, 0xff)];
      Format(h, m, t, b, block, write, c);
      info[h] := info[h].(status := 0xff);
      info[h] := info[h].(b := b);
      avail[Slot(availIdx)] := h;
      assert info[..] == i1 && avail[..] == a1;
      busy := busy + {b};
      availIdx := Inc(availIdx);
      g := Submitted(g, h, c);
    }

    /** free_chain of the chain at `h`, which no request has any more. */
    method FreeChain(h: nat, ghost c: Chain)
      requires Split(free[..], desc[..], g.own, g.chains, {h, c.mid, c.tail}) && h != c.mid && h != c.tail
      requires c.mid != c.tail
      requires h < NUM && c.mid < NUM && c.tail < NUM && desc.Length == NUM && Formatted(desc[..], h, c)
      modifies free, desc
      ensures Split(free[..], desc[..], g.own, g.chains, {})
    {
      hide Split;
      var i := h;
      ghost var pending := {h, c.mid, c.tail};
      ghost var left := 3;
      while true
        invariant 0 < left <= 3 && desc.Length == NUM && Split(free[..], desc[..], g.own, g.chains, pending)
        invariant i == (if left == 3 then h else if left == 2 then c.mid else c.tail)
        invariant pending == if left == 3 then {h, c.mid, c.tail} else if left == 2 then {c.mid, c.tail} else {c.tail}
        invariant left == 3 ==> Formatted(desc[..], h, c)
        invariant left == 2 ==> desc[..][c.mid].flags % 2 == 1 && desc[..][c.mid].next == c.tail
        invariant desc[..][c.tail].flags == WRITE
        decreases left
      {
        assert HasNext(desc[i].flags) <==> left > 1;
        var flag, nxt := desc[i].flags, desc[i].next;
        FreeDesc(i, pending);
        pending := pending - {i};
        left := left - 1;
        if HasNext(flag) {
          i := nxt;
        } else {
          break;
        }
      }
      assert pending == {};
    }

    /** The end of virtio_disk_rw, once b->disk is 0: the chain is free again. */
    method Finish(h: nat)
      requires Valid() && h in g.chains && g.chains[h].buf !in busy
      modifies this, free, desc, info
      ensures Valid() && g.chains == old(g).chains - {h}
      ensures old(g).chains[h].req in g.done && g.done == old(g).done && g.made == old(g).made
    {
      hide Split, Rest, Formatted, Slot, Inc;
      ghost var c := g.chains[h];
      RestShape(avail[..], seen, availIdx, used[..], usedIdx, usedDev, info[..], busy, g);
      RestFinish(free[..], desc[..], h, info[h].(b := 0), avail[..], seen, availIdx, used[..], usedIdx, usedDev,
        info[..], busy, g);
      ghost var i1 := info[..][h := info[h].(b := 0)];
      info[h] := info[h].(b := 0);
      assert info[..] == i1;
      g := Released(g, h);
      FreeChain(h, c);
    }

    /** virtio_disk_intr: each answered request is finished, in the order of the used ring. */
    method Intr()
      requires Valid()
      modifies this`usedIdx, this`busy, this`g
      ensures Valid() && g.answered == [] && |g.done| == |old(g).done| + |old(g).answered| && old(g).done <= g.done
      ensures forall k :: 0 <= k < |old(g).answered| ==>
        old(g).answered[k] in old(g).chains && g.done[|old(g).done| + k] == old(g).chains[old(g).answered[k]].req
    {
      hide Split, Rest, Slot, Inc;
      ghost var g0, n := g, 0;
      RestShape(avail[..], seen, availIdx, used[..], usedIdx, usedDev, info[..], busy, g);
      while usedIdx != usedDev
        invariant Valid() && n <= |g0.answered| && g.answered == g0.answered[n..] && g.chains.Keys == g0.chains.Keys
        invariant |g.done| == |g0.done| + n && g0.done <= g.done
        invariant forall k :: 0 <= k < n ==> g.done[|g0.done| + k] == g0.chains[g0.answered[k]].req
        invariant forall h :: h in g.chains ==> g.chains[h].req == g0.chains[h].req
        invariant usedIdx == usedDev <==> g.answered == []
        decreases |g.answered|
      {
        IntrOne();
        n := n + 1;
      }
    }

    // One turn of the loop.
    method IntrOne()
      requires Valid() && usedIdx != usedDev
      modifies this`usedIdx, this`busy, this`g
      ensures Valid() && old(g).answered != [] && old(g).answered[0] in old(g).chains && g == Handled(old(g))
      ensures usedIdx == usedDev <==> g.answered == []
    {
      hide Split, Rest, Slot, Inc, Handled;
      RestIntr(free[..], desc[..], avail[..], seen, availIdx, used[..], usedIdx, usedDev, info[..], busy, g);
      var id := used[Slot(usedIdx)];
      assert info[id].status == 0;    // otherwise a panic
      var b := info[id].b;
      busy := busy - {b};
      g := Handled(g);
      usedIdx := Inc(usedIdx);
      RestShape(avail[..], seen, availIdx, used[..], usedIdx, usedDev, info[..], busy, g);
    }

    /** The device takes the next request of the avail ring: it finds a complete chain. */
    method DeviceTake() returns (h: nat)
      requires Valid() && seen != availIdx
      modifies this`seen, this`g
      ensures Valid() && h in old(g).chains && old(g).chains[h].phase == Queued
      ensures g.chains == Moved(old(g).chains, h, Taken)
      ensures h < NUM && old(g).chains[h].mid < NUM && old(g).chains[h].tail < NUM && |desc[..]| == NUM
      ensures Formatted(desc[..], h, old(g).chains[h])
    {
      hide Split, Rest, Formatted, Slot, Inc;
      RestTake(free[..], desc[..], avail[..], seen, availIdx, used[..], usedIdx, usedDev, info[..], busy, g);
      h := avail[Slot(seen)];
      g := g.(chains := Moved(g.chains, h, Taken), queued := g.queued[1..]);
      seen := Inc(seen);
    }

    /** The device answers any request that it has taken. */
    method DeviceAnswer(h: nat)
      requires Valid() && h in g.chains && g.chains[h].phase == Taken
      modifies this`usedDev, this`g, info, used
      ensures Valid() && g == old(g).(chains := Moved(old(g).chains, h, Answered), answered := old(g).answered + [h])
    {
      hide Split, Rest, Slot, Inc;
      RestAnswer(free[..], desc[..], h, avail[..], seen, availIdx, used[..], usedIdx, usedDev, info[..], busy, g);
      ghost var i1, u1 := info[..][h := info[..][h].(status := 0)], used[..][Slot(usedDev) := h];
      info[h] := info[h].(status := 0);
      used[Slot(usedDev)] := h;
      assert info[..] == i1 && used[..] == u1;
      usedDev := Inc(usedDev);
      g := g.(chains := Moved(g.chains, h, Answered), answered := g.answered + [h]);
    }
  }

  lemma PendingBelow(free: seq<bool>, desc: seq<Desc>, own: seq<nat>, chains: map<nat, Chain>, pending: set<nat>)
    requires Split(free, desc, own, chains, pending)
    ensures |desc| == NUM && |free| == NUM && |own| == NUM && forall i :: i in pending ==> i < NUM && own[i] == NOBODY
  {
  }

  lemma SplitShape(free: seq<bool>, desc: seq<Desc>, own: seq<nat>, chains: map<nat, Chain>, pending: set<nat>)
    requires Split(free, desc, own, chains, pending)
    ensures |desc| == NUM && |free| == NUM && |own| == NUM
    ensures forall i :: i in pending ==> i < NUM
  {
  }

  // A new head is not in the avail ring, which therefore has room.
  lemma RingRoom(free: seq<bool>, desc: seq<Desc>, own: seq<nat>, chains: map<nat, Chain>, q: seq<nat>, ph: Phase,
                 h: nat, m: nat, t: nat,
                 ring: seq<nat>, info: seq<Info>, busy: set<nat>, open: map<nat, nat>, done: seq<nat>, made: nat,
                 tail: nat, head: nat)
    requires Split(free, desc, own, chains, {h, m, t}) && InPhase(chains, q, ph)
    requires Holds(ring, tail, head, q) && Tracked(chains, info, busy, open, done, made)
    ensures |q| < NUM && h < NUM && |ring| == NUM && |info| == NUM && h !in chains
  {
    hide Formatted;
    assert h < NUM && own[h] == NOBODY;
    forall k | k in chains ensures k != h {
      assert Owns(own, k, chains[k]);
    }
    assert h !in q;
    hide Owns;
    QueueFits(free, desc, own, chains, q, ph, {h, m, t}, h);
  }

  lemma NotQueued(free: seq<bool>, desc: seq<Desc>, own: seq<nat>, chains: map<nat, Chain>, q: seq<nat>, ph: Phase,
                  h: nat)
    requires Split(free, desc, own, chains, {}) && InPhase(chains, q, ph) && h in chains && chains[h].phase != ph
    ensures |q| < NUM && h < NUM
  {
    assert Owns(own, h, chains[h]);
    hide Formatted;
    QueueFits(free, desc, own, chains, q, ph, {}, h);
  }

  lemma AllInPhase(chains: map<nat, Chain>, q: seq<nat>, ph: Phase)
    requires InPhase(chains, q, ph)
    ensures forall k :: 0 <= k < |q| ==> q[k] in chains && chains[q[k]].phase == ph
  {
  }

  lemma ChainFormatted(free: seq<bool>, desc: seq<Desc>, own: seq<nat>, chains: map<nat, Chain>, h: nat)
    requires Split(free, desc, own, chains, {}) && h in chains
    ensures |desc| == NUM && h < NUM && chains[h].mid < NUM && chains[h].tail < NUM && Formatted(desc, h, chains[h])
  {
    assert Owns(own, h, chains[h]);
    hide Formatted;
  }

  lemma FinishedMeans(chains: map<nat, Chain>, info: seq<Info>, busy: set<nat>, open: map<nat, nat>, done: seq<nat>,
                      made: nat, h: nat)
    requires Tracked(chains, info, busy, open, done, made) && h in chains && chains[h].buf !in busy
    ensures chains[h].phase.Finished? && chains[h].req in done && |info| == NUM && h < NUM
  {
  }
}
