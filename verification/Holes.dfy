/**
 Which blocks a stretch of a file lacks, and whether the disk has room for them: what decides
 if readi, writei, dirlookup and dirlink of labo2/kernel/fs.c come to an end.
 */
module Holes {
  import opened Blocks
  import opened Inodes
  import opened Writing

  // ---------- Free blocks ----------

  ghost predicate AllMarked(sb: Super, d: Disk) {
    sb.Valid(0) && |d| == sb.size && forall b :: 0 <= b < sb.size ==> Marked(sb, d, b)
  }

  ghost function FreeSet(sb: Super, d: Disk): set<int>
    requires sb.Valid(0) && |d| == sb.size
  {
    set b | 0 <= b < sb.size && !Marked(sb, d, b)
  }

  // How many blocks balloc can still give out.
  ghost function FreeBlocks(sb: Super, d: Disk): nat {
    if sb.Valid(0) && |d| == sb.size then |FreeSet(sb, d)| else 0
  }

  lemma NoneFree(sb: Super, d: Disk)
    requires AllMarked(sb, d)
    ensures FreeBlocks(sb, d) == 0
  {
    assert FreeSet(sb, d) == {};
  }

  // The free map alone says what is free.
  lemma FreeFrame(sb: Super, d: Disk, e: Disk)
    requires sb.Valid(0) && |d| == |e| == sb.size
    requires forall c :: 0 <= c < sb.datastart ==> e[c] == d[c]
    ensures FreeBlocks(sb, e) == FreeBlocks(sb, d)
  {
    hide Marked;
    forall b | 0 <= b < sb.size
      ensures Marked(sb, e, b) <==> Marked(sb, d, b)
    {
      MarkedFrame(sb, d, e, b);
    }
    assert FreeSet(sb, e) == FreeSet(sb, d);
  }

  lemma FreeAfterAllocate(sb: Super, d: Disk, a: nat)
    requires sb.Valid(0) && |d| == sb.size && sb.datastart <= a < sb.size && !Marked(sb, d, a)
    ensures FreeBlocks(sb, Allocated(sb, d, a)) == FreeBlocks(sb, d) - 1
  {
    MarkOne(sb, d, a);
    var m := WithMark(sb, d, a);
    hide WithMark, Marked;
    assert FreeSet(sb, m) == FreeSet(sb, d) - {a};
    FreeFrame(sb, m, Allocated(sb, d, a));
  }

  // ---------- The blocks of a stretch ----------

  // The block of the file that is in slot `s`.
  function BlockOf(s: nat): int {
    if s < NDIRECT then s else s - 1
  }

  // Bytes off up to end of a file use slot `s`.
  predicate Reaches(off: nat, end: nat, s: nat) {
    off < end &&
    if s == INDIRECT then BlockNo(end - 1) >= NDIRECT else BlockNo(off) <= BlockOf(s) <= BlockNo(end - 1)
  }

  // The slots that bytes off up to end use and that are empty.
  function Needed(t: seq<nat>, off: nat, end: nat): set<nat>
    requires |t| == SLOTS
  {
    set s: nat | s < SLOTS && t[s] == 0 && Reaches(off, end, s)
  }

  // The slots filled since.
  function Gained(t: seq<nat>, u: seq<nat>): set<nat>
    requires |t| == |u| == SLOTS
  {
    set s: nat | s < SLOTS && t[s] == 0 && u[s] != 0
  }

  // Every block taken from the free ones is in a slot of this row.
  ghost predicate Balanced(sb: Super, d: Disk, t: seq<nat>, e: Disk, u: seq<nat>) {
    Keeps(t, u) && FreeBlocks(sb, e) + |Gained(t, u)| == FreeBlocks(sb, d)
  }

  lemma GainedNone(t: seq<nat>)
    requires |t| == SLOTS
    ensures Gained(t, t) == {}
  {
  }

  lemma BalancedSelf(sb: Super, d: Disk, t: seq<nat>)
    requires |t| == SLOTS
    ensures Balanced(sb, d, t, d, t)
  {
    GainedNone(t);
  }

  lemma GainedTwice(t: seq<nat>, u: seq<nat>, v: seq<nat>)
    requires Keeps(t, u) && Keeps(u, v)
    ensures Gained(t, v) == Gained(t, u) + Gained(u, v) && Gained(t, u) !! Gained(u, v)
  {
  }

  lemma BalancedTwice(sb: Super, d: Disk, t: seq<nat>, e: Disk, u: seq<nat>, f: Disk, v: seq<nat>)
    requires Balanced(sb, d, t, e, u) && Balanced(sb, e, u, f, v)
    ensures Balanced(sb, d, t, f, v)
  {
    hide FreeBlocks;
    GainedTwice(t, u, v);
    hide Gained;
    KeepsTwice(t, u, v);
  }

  // One block is taken, into slot `s`.
  lemma BalancedOne(sb: Super, d: Disk, t: seq<nat>, e: Disk, u: seq<nat>, s: nat)
    requires |t| == |u| == SLOTS && s < SLOTS && t[s] == 0 && u[s] != 0
    requires forall r :: 0 <= r < SLOTS && r != s ==> u[r] == t[r]
    requires FreeBlocks(sb, e) == FreeBlocks(sb, d) - 1
    ensures Balanced(sb, d, t, e, u) && Gained(t, u) == {s}
  {
    hide FreeBlocks;
    assert Gained(t, u) == {s};
  }

  // A stretch of two parts.
  lemma ReachesParts(off: nat, mid: nat, end: nat, s: nat)
    requires off <= mid <= end
    ensures Reaches(off, end, s) <==> Reaches(off, mid, s) || Reaches(mid, end, s)
  {
  }

  // A file has no entry of the indirect block without it.
  predicate Rooted(t: seq<nat>)
    requires |t| == SLOTS
  {
    forall s :: INDIRECT < s < SLOTS && t[s] != 0 ==> t[INDIRECT] != 0
  }

  lemma RowRooted(d: Disk, ino: seq<Inode>, i: nat)
    requires AllReadable(d, ino) && i < |ino|
    ensures |Tables(d, ino)[i]| == SLOTS && Rooted(Tables(d, ino)[i])
  {
    assert Tables(d, ino)[i] == Table(d, ino[i]);
  }

  // A file has no holes if and only if no block below its size is needed.
  lemma NoHolesIff(t: seq<nat>, size: nat)
    requires |t| == SLOTS && size <= MAXBYTES && Rooted(t)
    ensures NoHoles(t, size) <==> Needed(t, 0, size) == {}
  {
    if NoHoles(t, size) && size > 0 {
      forall s | s in Needed(t, 0, size)
        ensures false
      {
        NeededHole(t, size, s);
      }
    }
    if Needed(t, 0, size) == {} {
      forall bn | 0 <= bn < MAXFILE && bn * BSIZE < size
        ensures t[SlotOf(bn)] != 0
      {
        assert Reaches(0, size, SlotOf(bn));
        assert SlotOf(bn) !in Needed(t, 0, size);
      }
    }
  }

  // Where no file has a hole, nothing is needed for bytes below the size.
  lemma HoleFreeNeeds(d: Disk, ino: seq<Inode>, i: nat, off: nat, end: nat)
    requires HoleFree(d, ino) && i < |ino| && off <= end <= ino[i].size
    ensures AllReadable(d, ino) && Needed(Tables(d, ino)[i], off, end) == {}
  {
    HoleFreeFile(d, ino, i);
    hide HoleFree, NoHoles, Tables, Reaches;
    RowRooted(d, ino, i);
    NoHolesIff(Tables(d, ino)[i], ino[i].size);
    NeededWithin(Tables(d, ino)[i], off, end, 0, ino[i].size);
  }

  lemma NeededHole(t: seq<nat>, size: nat, s: nat)
    requires |t| == SLOTS && size <= MAXBYTES && Rooted(t) && s in Needed(t, 0, size)
    ensures !NoHoles(t, size)
  {
    var bn: int := if s == INDIRECT then BlockNo(size - 1) else BlockOf(s);
    OffsetParts(size - 1);
    assert 0 <= bn < MAXFILE && bn * BSIZE < size && t[SlotOf(bn)] == 0;
  }

  // A part of a stretch needs no more than the whole.
  lemma NeededWithin(t: seq<nat>, off: nat, end: nat, from: nat, to: nat)
    requires |t| == SLOTS && from <= off <= end <= to
    ensures Needed(t, off, end) <= Needed(t, from, to)
    ensures |Needed(t, off, end)| <= |Needed(t, from, to)|
  {
    forall s | s in Needed(t, off, end)
      ensures s in Needed(t, from, to)
    {
      ReachesParts(from, off, to, s);
      ReachesParts(off, end, to, s);
    }
    SubsetCount(Needed(t, off, end), Needed(t, from, to));
  }

  lemma {:induction false} SubsetCount(a: set<nat>, b: set<nat>)
    requires a <= b
    ensures |a| <= |b| && (a != b ==> |a| < |b|)
  {
    assert b == a + (b - a);
    assert a != b ==> b - a != {};
  }

  // ---------- A loop over a stretch ----------

  // Bytes off up to end are reached, all their blocks are there, and nothing was taken but what
  // the stretch up to goal needs.
  ghost predicate Filling(sb: Super, d: Disk, t: seq<nat>, e: Disk, u: seq<nat>, off: nat, end: nat, goal: nat) {
    && off <= end <= goal
    && Balanced(sb, d, t, e, u) && Gained(t, u) <= Needed(t, off, goal) && Needed(u, off, end) == {}
  }

  lemma FillingBegins(sb: Super, d: Disk, t: seq<nat>, off: nat, goal: nat)
    requires |t| == SLOTS && off <= goal
    ensures Filling(sb, d, t, d, t, off, off, goal)
  {
    BalancedSelf(sb, d, t);
    GainedNone(t);
  }

  lemma BlockReached(off: nat, end: nat, goal: nat, s: nat)
    requires off <= end < goal && (s == SlotOf(BlockNo(end)) || (s == INDIRECT && BlockNo(end) >= NDIRECT))
    ensures Reaches(off, goal, s)
  {
  }

  // The next bytes are all in the block of `end`.
  lemma BlockCovers(off: nat, end: nat, m: nat, s: nat)
    requires off <= end && 0 < m <= BSIZE - InBlock(end) && (end > off ==> InBlock(end) == 0)
    requires Reaches(off, end + m, s)
    ensures Reaches(off, end, s) || s == SlotOf(BlockNo(end)) || (s == INDIRECT && BlockNo(end) >= NDIRECT)
  {
    assert BlockNo(end + m - 1) == BlockNo(end);
  }

  lemma FillingGoesOn(sb: Super, d: Disk, t: seq<nat>, e: Disk, u: seq<nat>, f: Disk, v: seq<nat>, off: nat, end: nat,
                      m: nat, goal: nat)
    requires Filling(sb, d, t, e, u, off, end, goal) && Balanced(sb, e, u, f, v)
    requires end + m <= goal && BlockNo(end) < MAXFILE && Gained(u, v) <= ForBlock(BlockNo(end))
    requires 0 < m <= BSIZE - InBlock(end) && (end > off ==> InBlock(end) == 0)
    requires v[SlotOf(BlockNo(end))] != 0 && (BlockNo(end) >= NDIRECT ==> v[INDIRECT] != 0)
    ensures Filling(sb, d, t, f, v, off, end + m, goal)
  {
    hide FreeBlocks, Reaches, BlockNo, InBlock;
    BalancedTwice(sb, d, t, e, u, f, v);
    GainedTwice(t, u, v);
    forall s | s in Gained(u, v)
      ensures s in Needed(t, off, goal)
    {
      BlockReached(off, end, goal, s);
    }
    forall s: nat | s < SLOTS && Reaches(off, end + m, s)
      ensures v[s] != 0
    {
      BlockCovers(off, end, m, s);
      if Reaches(off, end, s) {
        assert s !in Needed(u, off, end);
      }
    }
  }

  // The blocks up to `end` are there, that of `end` is not.
  ghost predicate Stopped(sb: Super, d: Disk, t: seq<nat>, f: Disk, v: seq<nat>, off: nat, end: nat, goal: nat) {
    && off <= end < goal && BlockNo(end) < MAXFILE
    && Balanced(sb, d, t, f, v) && Gained(t, v) <= Needed(t, off, goal)
    && Needed(v, off, end) == {} && v[SlotOf(BlockNo(end))] == 0
  }

  // A stretch that needs nothing has the block of each of its bytes.
  lemma BlockThere(t: seq<nat>, off: nat, end: nat, goal: nat)
    requires |t| == SLOTS && off <= end < goal && BlockNo(end) < MAXFILE && Needed(t, off, goal) == {}
    ensures t[SlotOf(BlockNo(end))] != 0
  {
    BlockReached(off, end, goal, SlotOf(BlockNo(end)));
    assert SlotOf(BlockNo(end)) !in Needed(t, off, goal);
  }

  // bmap found no free block for the next byte.
  lemma FillingStops(sb: Super, d: Disk, t: seq<nat>, e: Disk, u: seq<nat>, f: Disk, v: seq<nat>, off: nat, end: nat,
                     goal: nat)
    requires Filling(sb, d, t, e, u, off, end, goal) && Balanced(sb, e, u, f, v) && end < goal
    requires BlockNo(end) < MAXFILE && Gained(u, v) <= ForBlock(BlockNo(end)) && v[SlotOf(BlockNo(end))] == 0
    requires AllMarked(sb, f)
    ensures Stopped(sb, d, t, f, v, off, end, goal)
    ensures |Needed(t, off, goal)| > FreeBlocks(sb, d)
  {
    NoneFree(sb, f);
    hide FreeBlocks, Reaches, BlockNo, AllMarked;
    BalancedTwice(sb, d, t, e, u, f, v);
    GainedTwice(t, u, v);
    forall s | s in Gained(u, v)
      ensures s in Needed(t, off, goal)
    {
      BlockReached(off, end, goal, s);
    }
    var hole := SlotOf(BlockNo(end));
    BlockReached(off, end, goal, hole);
    assert hole in Needed(t, off, goal) && hole !in Gained(t, v);
    SubsetCount(Gained(t, v), Needed(t, off, goal));
    forall s: nat | s < SLOTS && Reaches(off, end, s)
      ensures v[s] != 0
    {
      assert s !in Needed(u, off, end);
    }
  }

  // The whole stretch was reached: exactly what it needed was taken.
  ghost predicate Filled(sb: Super, d: Disk, t: seq<nat>, e: Disk, u: seq<nat>, off: nat, end: nat) {
    off <= end && Balanced(sb, d, t, e, u) && Gained(t, u) == Needed(t, off, end)
  }

  lemma FillingEnds(sb: Super, d: Disk, t: seq<nat>, e: Disk, u: seq<nat>, off: nat, goal: nat)
    requires Filling(sb, d, t, e, u, off, goal, goal)
    ensures Filled(sb, d, t, e, u, off, goal) && |Needed(t, off, goal)| <= FreeBlocks(sb, d)
  {
    hide FreeBlocks, Reaches;
    forall s | s in Needed(t, off, goal)
      ensures s in Gained(t, u)
    {
      assert s !in Needed(u, off, goal);
    }
  }

  lemma FilledNothing(sb: Super, d: Disk, t: seq<nat>, off: nat)
    requires |t| == SLOTS
    ensures Filled(sb, d, t, d, t, off, off) && Needed(t, off, off) == {}
  {
    BalancedSelf(sb, d, t);
    GainedNone(t);
  }

  // Two stretches, one after the other: the second needs what the first left of the whole.
  lemma NeededParts(sb: Super, d: Disk, t: seq<nat>, e: Disk, u: seq<nat>, off: nat, mid: nat, end: nat)
    requires Filled(sb, d, t, e, u, off, mid) && mid <= end
    ensures |u| == SLOTS
    ensures Needed(t, off, end) == Needed(t, off, mid) + Needed(u, mid, end)
    ensures Needed(t, off, mid) !! Needed(u, mid, end)
    ensures |Needed(u, mid, end)| <= FreeBlocks(sb, e) <==> |Needed(t, off, end)| <= FreeBlocks(sb, d)
  {
    hide FreeBlocks, Reaches;
    assert Gained(t, u) == Needed(t, off, mid);
    forall s: nat | s < SLOTS
      ensures s in Needed(t, off, end) <==> s in Needed(t, off, mid) || s in Needed(u, mid, end)
    {
      ReachesParts(off, mid, end, s);
      assert s in Gained(t, u) <==> s in Needed(t, off, mid);
    }
    assert Needed(t, off, end) == Needed(t, off, mid) + Needed(u, mid, end);
  }

  lemma FilledTwice(sb: Super, d: Disk, t: seq<nat>, e: Disk, u: seq<nat>, f: Disk, v: seq<nat>, off: nat, mid: nat,
                    end: nat)
    requires Filled(sb, d, t, e, u, off, mid) && Filled(sb, e, u, f, v, mid, end)
    ensures Filled(sb, d, t, f, v, off, end) && |Needed(t, off, end)| <= FreeBlocks(sb, d)
  {
    NeededParts(sb, d, t, e, u, off, mid, end);
    hide FreeBlocks, Needed;
    GainedTwice(t, u, v);
    BalancedTwice(sb, d, t, e, u, f, v);
    hide Gained;
  }

  // What a filled stretch had to take was there.
  lemma FilledFits(sb: Super, d: Disk, t: seq<nat>, e: Disk, u: seq<nat>, off: nat, end: nat)
    requires Filled(sb, d, t, e, u, off, end)
    ensures |Needed(t, off, end)| <= FreeBlocks(sb, d) && Needed(u, off, end) == {}
  {
    hide FreeBlocks, Reaches;
    forall s: nat | s < SLOTS && Reaches(off, end, s)
      ensures u[s] != 0
    {
      assert t[s] == 0 ==> s in Needed(t, off, end);
      assert s in Gained(t, u) <==> s in Needed(t, off, end);
    }
  }

  // Filling a part of what is filled takes nothing.
  lemma FilledAgain(sb: Super, d: Disk, t: seq<nat>, e: Disk, u: seq<nat>, f: Disk, v: seq<nat>, off: nat, mid: nat,
                    end: nat)
    requires Filled(sb, d, t, e, u, off, end) && Filled(sb, e, u, f, v, off, mid) && mid <= end
    ensures Filled(sb, d, t, f, v, off, end)
  {
    FilledFits(sb, d, t, e, u, off, end);
    NeededWithin(u, off, mid, off, end);
    hide FreeBlocks, Needed;
    GainedTwice(t, u, v);
    BalancedTwice(sb, d, t, e, u, f, v);
    hide Gained;
  }

  // ---------- One call of bmap ----------

  // The slots that bmap may fill for block `bn`.
  function ForBlock(bn: nat): set<nat> {
    if bn < NDIRECT then {SlotOf(bn)} else {INDIRECT, SlotOf(bn)}
  }

  // Inode `i` took free blocks into some of the `slots` and nowhere else.
  ghost predicate Takes(sb: Super, d: Disk, ino: seq<Inode>, f: Disk, jno: seq<Inode>, i: nat, slots: set<nat>) {
    && AllReadable(d, ino) && AllReadable(f, jno) && i < |ino| == |jno|
    && Balanced(sb, d, Tables(d, ino)[i], f, Tables(f, jno)[i])
    && Gained(Tables(d, ino)[i], Tables(f, jno)[i]) <= slots
  }

  lemma TakesNothing(sb: Super, d: Disk, ino: seq<Inode>, i: nat, slots: set<nat>)
    requires AllReadable(d, ino) && i < |ino|
    ensures Takes(sb, d, ino, d, ino, i, slots)
  {
    BalancedSelf(sb, d, Tables(d, ino)[i]);
    GainedNone(Tables(d, ino)[i]);
  }

  lemma TakesOne(sb: Super, d: Disk, ino: seq<Inode>, f: Disk, jno: seq<Inode>, i: nat, s: nat)
    requires AllReadable(d, ino) && AllReadable(f, jno) && i < |ino| == |jno| && s < SLOTS
    requires Tables(d, ino)[i][s] == 0 && Tables(f, jno)[i][s] != 0
    requires forall r :: 0 <= r < SLOTS && r != s ==> Tables(f, jno)[i][r] == Tables(d, ino)[i][r]
    requires FreeBlocks(sb, f) == FreeBlocks(sb, d) - 1
    ensures Takes(sb, d, ino, f, jno, i, {s})
  {
    hide Tables, FreeBlocks;
    BalancedOne(sb, d, Tables(d, ino)[i], f, Tables(f, jno)[i], s);
  }

  lemma TakesTwice(sb: Super, d: Disk, ino: seq<Inode>, e: Disk, jno: seq<Inode>, f: Disk, kno: seq<Inode>, i: nat,
                   a: set<nat>, b: set<nat>, c: set<nat>)
    requires Takes(sb, d, ino, e, jno, i, a) && Takes(sb, e, jno, f, kno, i, b) && a + b <= c
    ensures Takes(sb, d, ino, f, kno, i, c)
  {
    hide Tables, FreeBlocks;
    var t, u, v := Tables(d, ino)[i], Tables(e, jno)[i], Tables(f, kno)[i];
    BalancedTwice(sb, d, t, e, u, f, v);
    GainedTwice(t, u, v);
    hide Gained;
  }
}
