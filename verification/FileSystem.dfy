/**
 Blocks and inodes of labo2/kernel/fs.c: balloc, bfree, bmap, itrunc, readi and writei, on
 the blocks that the buffer cache presents, and filewrite of labo2/kernel/file.c above them.
 */
module FileSystem {
  import opened Blocks
  import opened Inodes
  import opened Writing
  import opened Holes
  import RedoLog

  // The first block that one block of the free map covers.
  predicate MapStart(b: nat) {
    b % BPB == 0
  }

  lemma MapStarts(b: nat)
    ensures MapStart(0) && (MapStart(b) ==> MapStart(b + BPB))
  {
  }

  // Every block before `b` is marked.
  ghost predicate MarkedBefore(sb: Super, d: Disk, b: nat) {
    sb.Valid(0) && |d| == sb.size && forall c :: 0 <= c < b && c < sb.size ==> Marked(sb, d, c)
  }

  lemma SameMapBlock(sb: Super, b: nat, bi: nat)
    requires MapStart(b) && bi < BPB
    ensures sb.BBlock(b + bi) == sb.BBlock(b) && (b + bi) % BPB == bi
  {
  }

  lemma FoundFree(sb: Super, d: Disk, b: nat, bi: nat)
    requires sb.Valid(0) && |d| == sb.size && MapStart(b) && bi < BPB && b + bi < sb.size
    requires !Marked(sb, d, b + bi)
    ensures sb.BBlock(b) == sb.BBlock(b + bi) < sb.size && !BlockBit(d[sb.BBlock(b)], bi)
    ensures d[sb.BBlock(b) := WithBit(d[sb.BBlock(b)], bi)][b + bi := Zeroes()] == Allocated(sb, d, b + bi)
  {
    SameMapBlock(sb, b, bi);
  }

  lemma ScanBegins(sb: Super, d: Disk)
    requires sb.Valid(0) && |d| == sb.size
    ensures MarkedBefore(sb, d, 0)
  {
  }

  lemma ScanGoesOn(sb: Super, d: Disk, b: nat, bi: nat)
    requires MarkedBefore(sb, d, b + bi) && (bi == BPB || b + bi == sb.size)
    ensures MarkedBefore(sb, d, b + BPB)
  {
  }

  lemma ScanEnds(sb: Super, d: Disk, b: nat)
    requires MarkedBefore(sb, d, b) && b >= sb.size
    ensures AllMarked(sb, d)
  {
  }

  lemma MapBlockInside(sb: Super, b: nat)
    requires sb.Valid(0) && b < sb.size
    ensures sb.BBlock(b) < sb.size
  {
  }

  lemma GoodFacts(sb: Super, d: Disk, ino: seq<Inode>, owner: map<nat, Slot>)
    requires Good(sb, d, ino, owner, {})
    ensures sb.Valid(0) && |d| == sb.size && AllReadable(d, ino) && Owned(Tables(d, ino), owner)
    ensures Marked(sb, d, 0)
    ensures forall a :: a in owner ==> sb.datastart <= a < sb.size
  {
    assert Marked(sb, d, 0) <==> 0 < sb.datastart || 0 in owner.Keys + {};
  }

  lemma TableEntry(d: Disk, ino: seq<Inode>, i: nat, s: nat)
    requires AllReadable(d, ino) && i < |ino| && s <= INDIRECT
    ensures Tables(d, ino)[i][s] == ino[i].addrs[s]
  {
  }

  lemma IndirectEntry(d: Disk, ino: seq<Inode>, i: nat, j: nat)
    requires AllReadable(d, ino) && i < |ino| && j < NINDIRECT && ino[i].addrs[INDIRECT] != 0
    ensures Tables(d, ino)[i][INDIRECT + 1 + j] == Word(d[ino[i].addrs[INDIRECT]], j)
  {
    hide Word;
    assert Tables(d, ino)[i] == Table(d, ino[i]);
    assert Words(d[ino[i].addrs[INDIRECT]])[j] == Word(d[ino[i].addrs[INDIRECT]], j);
  }

  lemma NoIndirect(d: Disk, ino: seq<Inode>, i: nat, j: nat)
    requires AllReadable(d, ino) && i < |ino| && j < NINDIRECT && ino[i].addrs[INDIRECT] == 0
    ensures Tables(d, ino)[i][INDIRECT + 1 + j] == 0
  {
  }

  lemma LogOfDirect(sb: Super, t: seq<nat>, u: seq<nat>, bn: nat)
    requires |t| == |u| == SLOTS && bn < NDIRECT
    requires forall r :: 0 <= r < SLOTS && r != bn ==> u[r] == t[r]
    requires t[bn] != 0 ==> u[bn] == t[bn]
    ensures BmapLog(sb, t, u, bn) == if t[bn] == 0 && u[bn] != 0 then {sb.BBlock(u[bn]), u[bn]} else {}
  {
  }

  lemma LogOfIndirect(sb: Super, t: seq<nat>, u: seq<nat>, v: seq<nat>, j: nat)
    requires |t| == |u| == |v| == SLOTS && j < NINDIRECT
    requires forall r :: 0 <= r < SLOTS && r != INDIRECT ==> u[r] == t[r]
    requires t[INDIRECT] != 0 ==> u[INDIRECT] == t[INDIRECT]
    requires var s := INDIRECT + 1 + j;
             (forall r :: 0 <= r < SLOTS && r != s ==> v[r] == u[r]) && (u[s] != 0 ==> v[s] == u[s])
    ensures var s := INDIRECT + 1 + j;
            BmapLog(sb, t, v, NDIRECT + j) ==
            (if t[INDIRECT] == 0 && u[INDIRECT] != 0 then {sb.BBlock(u[INDIRECT]), u[INDIRECT]} else {}) +
            (if u[s] == 0 && v[s] != 0 then {sb.BBlock(v[s]), v[s], u[INDIRECT]} else {})
  {
  }

  lemma ExtendsKeeps(d: Disk, ino: seq<Inode>, f: Disk, jno: seq<Inode>, i: nat)
    requires Extends(d, ino, f, jno, i)
    ensures AllReadable(d, ino) && AllReadable(f, jno) && |jno| == |ino| && Keeps(Tables(d, ino)[i], Tables(f, jno)[i])
  {
  }

  // A file has no block beyond the direct ones without the indirect block.
  lemma HeldIndirect(d: Disk, ino: seq<Inode>, i: nat, bn: nat)
    requires AllReadable(d, ino) && i < |ino| && bn < MAXFILE
    ensures Tables(d, ino)[i][SlotOf(bn)] != 0 && bn >= NDIRECT ==> Tables(d, ino)[i][INDIRECT] != 0
  {
  }

  // Sizes play no part in who owns what.
  lemma SameGood(sb: Super, d: Disk, ino: seq<Inode>, jno: seq<Inode>, owner: map<nat, Slot>)
    requires Good(sb, d, ino, owner, {}) && AllReadable(d, jno) && Tables(d, jno) == Tables(d, ino)
    ensures Good(sb, d, jno, owner, {})
  {
  }

  lemma SameKeepsData(d: Disk, owner: map<nat, Slot>)
    ensures KeepsData(d, d, owner)
  {
  }

  lemma NothingLogged(sb: Super, d: Disk, ino: seq<Inode>, i: nat, bn: nat)
    requires AllReadable(d, ino) && i < |ino| && bn < MAXFILE
    ensures BmapLog(sb, Tables(d, ino)[i], Tables(d, ino)[i], bn) == {}
  {
  }

  lemma BlockInside(sb: Super, d: Disk, ino: seq<Inode>, owner: map<nat, Slot>, i: nat, bn: nat)
    requires Good(sb, d, ino, owner, {}) && i < |ino| && bn < MAXFILE && Tables(d, ino)[i][SlotOf(bn)] != 0
    ensures Tables(d, ino)[i][SlotOf(bn)] < |d|
  {
    OwnedOf(sb, d, Tables(d, ino), owner, {});
    hide GoodTables, Owned, Tables;
    HeldBy(Tables(d, ino), owner, i, SlotOf(bn));
  }

  // The rows `t` are those of the inodes `ino` on the disk `d`.
  ghost predicate Listed(sb: Super, d: Disk, ino: seq<Inode>, t: seq<seq<nat>>, i: nat)
    ensures Listed(sb, d, ino, t, i) ==> i < |t| && |t[i]| == SLOTS
  {
    && AllReadable(d, ino) && t == Tables(d, ino) && i < |ino| && |d| == sb.size
    && (t[i][INDIRECT] != 0 ==> sb.datastart <= t[i][INDIRECT])
  }

  lemma TruncateBegins(sb: Super, d: Disk, ino: seq<Inode>, owner: map<nat, Slot>, i: nat)
    requires Good(sb, d, ino, owner, {}) && i < |ino|
    ensures var t := Tables(d, ino);
            && |ino[i].addrs| == NDIRECT + 1 && Listed(sb, d, ino, t, i) && Freeing(sb, d, t, d, owner, i, 0)
            && forall r :: 0 <= r <= INDIRECT ==> ino[i].addrs[r] == t[i][r]
  {
    var t := Tables(d, ino);
    FreeingBegins(sb, d, t, owner, i);
    OwnedOf(sb, d, t, owner, {});
    hide GoodTables, Freeing, Owned;
    assert t[i][INDIRECT] != 0 ==> t[i][INDIRECT] in owner by {
      if t[i][INDIRECT] != 0 {
        HeldBy(t, owner, i, INDIRECT);
      }
    }
  }

  lemma NoneListed(sb: Super, d: Disk, ino: seq<Inode>, t: seq<seq<nat>>, i: nat)
    requires Listed(sb, d, ino, t, i) && t[i][INDIRECT] == 0
    ensures forall s :: INDIRECT <= s < SLOTS ==> t[i][s] == 0
  {
  }

  // Bitmap updates leave the indirect block alone.
  lemma ListedEntry(sb: Super, d: Disk, ino: seq<Inode>, t: seq<seq<nat>>, e: Disk, owner: map<nat, Slot>, i: nat,
                    j: nat)
    requires Listed(sb, d, ino, t, i) && t[i][INDIRECT] != 0 && j < NINDIRECT
    requires Freeing(sb, d, t, e, owner, i, INDIRECT + 1 + j)
    ensures t[i][INDIRECT] < |e| && t[i][INDIRECT + 1 + j] == Word(e[t[i][INDIRECT]], j)
  {
    IndirectEntry(d, ino, i, j);
    TableEntry(d, ino, i, INDIRECT);
    hide Word, GoodTables, Cleared, Tables;
  }

  lemma FreeSkip(sb: Super, d: Disk, t: seq<seq<nat>>, e: Disk, owner: map<nat, Slot>, i: nat)
    requires i < |t| && |t[i]| == SLOTS && Freeing(sb, d, t, e, owner, i, INDIRECT)
    ensures Freeing(sb, d, t, e, owner, i, INDIRECT + 1)
  {
    assert Cleared(t, i, INDIRECT + 1)[i] == Cleared(t, i, INDIRECT)[i];
    assert Cleared(t, i, INDIRECT + 1) == Cleared(t, i, INDIRECT);
    hide Cleared, GoodTables;
  }

  lemma EmptyInode(ino: seq<Inode>, jno: seq<Inode>, i: nat)
    requires i < |ino| == |jno| && forall j :: 0 <= j < |ino| && j != i ==> jno[j] == ino[j]
    requires |jno[i].addrs| == NDIRECT + 1 && forall r :: 0 <= r <= INDIRECT ==> jno[i].addrs[r] == 0
    ensures jno[i := Inode(0, jno[i].addrs)] == ino[i := Inode(0, NoAddrs())]
  {
    assert jno[i].addrs == NoAddrs();
  }

  lemma TruncateDone(sb: Super, d: Disk, e: Disk, ino: seq<Inode>, owner: map<nat, Slot>, kept: map<nat, Slot>, i: nat)
    requires Good(sb, d, ino, owner, {}) && i < |ino| && Freed(sb, d, Tables(d, ino), e, kept, i)
    ensures var kno := ino[i := Inode(0, NoAddrs())];
            && Good(sb, e, kno, kept, {}) && FreesExactly(sb, d, e, owner, kept, i)
            && OthersKept(d, ino, e, kno, i)
  {
    TruncateEnds(sb, d, e, ino, owner, kept, i);
    var kno := ino[i := Inode(0, NoAddrs())];
    hide Table, GoodTables, Freed, FreesExactly, Space;
    forall j | 0 <= j < |ino| && j != i
      ensures Table(e, kno[j]) == Table(d, ino[j]) && Space(e, Table(e, kno[j])) == Space(d, Table(d, ino[j]))
    {
      assert Tables(e, kno)[j] == Table(e, kno[j]) && Tables(d, ino)[j] == Table(d, ino[j]);
    }
  }

  lemma EmptyHoleFree(d: Disk, ino: seq<Inode>, e: Disk, jno: seq<Inode>, i: nat)
    requires OthersKept(d, ino, e, jno, i) && i < |jno| && jno[i].size == 0
    ensures HoleFree(d, ino) ==> HoleFree(e, jno)
  {
    OthersKeptShape(d, ino, e, jno, i);
    if HoleFree(d, ino) {
      assert NoHoles(Tables(e, jno)[i], 0);
      hide HoleFree, OthersKept;
      StillHoleFree(d, ino, e, jno, i);
    }
  }

  ghost predicate Same(d: Disk, ino: seq<Inode>, owner: map<nat, Slot>, e: Disk, jno: seq<Inode>,
                       kept: map<nat, Slot>)
  {
    e == d && jno == ino && kept == owner
  }

  /**
   What reading `n` bytes at `off` does to the blocks of inode `i`, when `k` bytes come back.
   All of them come back exactly when there are as many free blocks as the stretch lacks;
   then those slots are filled and no others.  Otherwise the disk is full, and `k` ends at a
   block that is still missing.
   */
  ghost predicate ReadFills(sb: Super, d: Disk, ino: seq<Inode>, f: Disk, kno: seq<Inode>, i: nat, off: nat, n: nat,
                            k: nat)
  {
    && AllReadable(d, ino) && AllReadable(f, kno) && i < |ino| == |kno| && k <= n
    && (k == n <==> |Needed(Tables(d, ino)[i], off, off + n)| <= FreeBlocks(sb, d))
    && (k == n ==> Filled(sb, d, Tables(d, ino)[i], f, Tables(f, kno)[i], off, off + n))
    && (k < n ==> Stopped(sb, d, Tables(d, ino)[i], f, Tables(f, kno)[i], off, off + k, off + n)
                  && AllMarked(sb, f) && (k > 0 ==> Aligned(off + k)))
  }

  // balloc took one of the free blocks, which is in the data area.
  lemma FreeTaken(sb: Super, d: Disk, ino: seq<Inode>, owner: map<nat, Slot>, a: nat)
    requires Good(sb, d, ino, owner, {}) && a < sb.size && sb.Valid(0) && |d| == sb.size && !Marked(sb, d, a)
    ensures FreeBlocks(sb, Allocated(sb, d, a)) == FreeBlocks(sb, d) - 1
  {
    hide Owned, Tables, FreeBlocks, Allocated;
    AllocateMatches(sb, d, owner.Keys + {}, a);
    FreeAfterAllocate(sb, d, a);
  }

  lemma FreeInData(sb: Super, d: Disk, ino: seq<Inode>, owner: map<nat, Slot>, a: nat)
    requires Good(sb, d, ino, owner, {}) && a < sb.size && sb.Valid(0) && |d| == sb.size && !Marked(sb, d, a)
    ensures sb.datastart <= a
  {
    hide Owned, Tables;
    AllocateMatches(sb, d, owner.Keys + {}, a);
  }

  // Contents of data blocks change.
  lemma TakesFrame(sb: Super, d: Disk, ino: seq<Inode>, e: Disk, jno: seq<Inode>, f: Disk, i: nat, slots: set<nat>)
    requires Takes(sb, d, ino, e, jno, i, slots) && AllReadable(f, jno) && Tables(f, jno) == Tables(e, jno)
    requires sb.Valid(0) && |e| == |f| == sb.size && forall c :: 0 <= c < sb.datastart ==> f[c] == e[c]
    ensures Takes(sb, d, ino, f, jno, i, slots)
  {
    hide Tables, FreeBlocks, Gained;
    FreeFrame(sb, e, f);
  }

  // One more block of the stretch is there.
  lemma FillGoesOn(sb: Super, d: Disk, t: seq<nat>, e: Disk, jno: seq<Inode>, f: Disk, kno: seq<Inode>,
                   i: nat, off: nat, end: nat, m: nat, goal: nat)
    requires Takes(sb, e, jno, f, kno, i, ForBlock(BlockNo(end))) && |t| == SLOTS
    requires Filling(sb, d, t, e, Tables(e, jno)[i], off, end, goal)
    requires end + m <= goal && BlockNo(end) < MAXFILE && 0 < m && InBlock(end) + m <= BSIZE
             && (end > off ==> Aligned(end))
    requires Tables(f, kno)[i][SlotOf(BlockNo(end))] != 0 && (BlockNo(end) >= NDIRECT ==>
             Tables(f, kno)[i][INDIRECT] != 0)
    ensures Filling(sb, d, t, f, Tables(f, kno)[i], off, end + m, goal)
  {
    hide Tables, FreeBlocks, ForBlock, Balanced, Filling;
    FillingGoesOn(sb, d, t, e, Tables(e, jno)[i], f, Tables(f, kno)[i], off, end, m, goal);
  }

  // balloc ran out at the block of `end`.
  lemma FillStops(sb: Super, d: Disk, t: seq<nat>, e: Disk, jno: seq<Inode>, f: Disk, kno: seq<Inode>,
                  i: nat, off: nat, end: nat, goal: nat)
    requires Takes(sb, e, jno, f, kno, i, ForBlock(BlockNo(end))) && |t| == SLOTS
    requires Filling(sb, d, t, e, Tables(e, jno)[i], off, end, goal)
    requires end < goal && BlockNo(end) < MAXFILE && AllMarked(sb, f) && Tables(f, kno)[i][SlotOf(BlockNo(end))] == 0
    ensures Stopped(sb, d, t, f, Tables(f, kno)[i], off, end, goal)
    ensures |Needed(t, off, goal)| > FreeBlocks(sb, d)
  {
    hide Tables, FreeBlocks, ForBlock, Balanced, Filling, Needed;
    FillingStops(sb, d, t, e, Tables(e, jno)[i], f, Tables(f, kno)[i], off, end, goal);
  }

  lemma ReadsNothing(sb: Super, d: Disk, ino: seq<Inode>, i: nat, off: nat)
    requires AllReadable(d, ino) && i < |ino|
    ensures ReadFills(sb, d, ino, d, ino, i, off, 0, 0)
  {
    FilledNothing(sb, d, Tables(d, ino)[i], off);
  }

  lemma ReadStopped(sb: Super, d: Disk, ino: seq<Inode>, f: Disk, kno: seq<Inode>, i: nat, off: nat, n: nat, k: nat)
    requires AllReadable(d, ino) && AllReadable(f, kno) && i < |ino| == |kno| && k < n && (k > 0 ==> Aligned(off + k))
    requires BlockNo(off + k) < MAXFILE
    requires Stopped(sb, d, Tables(d, ino)[i], f, Tables(f, kno)[i], off, off + k, off + n) && AllMarked(sb, f)
    requires |Needed(Tables(d, ino)[i], off, off + n)| > FreeBlocks(sb, d)
    ensures ReadFills(sb, d, ino, f, kno, i, off, n, k)
  {
    hide Tables, FreeBlocks, Stopped, Needed, AllMarked;
  }

  lemma ReadEnded(sb: Super, d: Disk, ino: seq<Inode>, f: Disk, kno: seq<Inode>, i: nat, off: nat, n: nat)
    requires AllReadable(d, ino) && AllReadable(f, kno) && i < |ino| == |kno|
    requires Filling(sb, d, Tables(d, ino)[i], f, Tables(f, kno)[i], off, off + n, off + n)
    ensures ReadFills(sb, d, ino, f, kno, i, off, n, n)
  {
    hide Tables, FreeBlocks, Needed, Filling, Filled;
    FillingEnds(sb, d, Tables(d, ino)[i], f, Tables(f, kno)[i], off, off + n);
  }

  // ---------- The loop of readi ----------

  // The bytes `dst` are read and their blocks are there.
  ghost predicate Reading(sb: Super, d: Disk, ino: seq<Inode>, f: Disk, kno: seq<Inode>, i: nat, off: nat, n: nat,
                          dst: seq<Byte>)
  {
    && Extends(d, ino, f, kno, i) && |dst| <= n && ReadSoFar(d, ino[i], off, dst)
    && (0 < |dst| < n ==> Aligned(off + |dst|))
    && Filling(sb, d, Tables(d, ino)[i], f, Tables(f, kno)[i], off, off + |dst|, off + n)
  }

  // What the loop ends with.
  ghost predicate ReadsTo(sb: Super, d: Disk, ino: seq<Inode>, f: Disk, kno: seq<Inode>, i: nat, off: nat, n: nat,
                          dst: seq<Byte>)
  {
    && Extends(d, ino, f, kno, i) && |dst| <= n && ReadSoFar(d, ino[i], off, dst)
    && ReadFills(sb, d, ino, f, kno, i, off, n, |dst|)
  }

  lemma ReadingBegins(sb: Super, d: Disk, ino: seq<Inode>, i: nat, off: nat, n: nat)
    requires AllReadable(d, ino) && i < |ino| && off + n <= ino[i].size <= MAXBYTES
    ensures Reading(sb, d, ino, d, ino, i, off, n, [])
  {
    hide Tables, Filling, Extends, ReadSoFar;
    ReadBegins(d, ino, i, off);
    FillingBegins(sb, d, Tables(d, ino)[i], off, off + n);
  }

  lemma ReadingEnds(sb: Super, d: Disk, ino: seq<Inode>, f: Disk, kno: seq<Inode>, i: nat, off: nat, n: nat,
                    dst: seq<Byte>)
    requires Reading(sb, d, ino, f, kno, i, off, n, dst) && |dst| == n
    ensures ReadsTo(sb, d, ino, f, kno, i, off, n, dst)
  {
    hide Reading, Tables, Filling, Extends, ReadSoFar, ReadFills, AllReadable;
    ReadingParts(sb, d, ino, f, kno, i, off, n, dst);
    ReadEnded(sb, d, ino, f, kno, i, off, n);
  }

  // The next block of the file; it is there where nothing is needed.
  lemma ReadingAt(sb: Super, d: Disk, ino: seq<Inode>, f: Disk, kno: seq<Inode>, i: nat, off: nat, n: nat,
                  dst: seq<Byte>)
    requires Reading(sb, d, ino, f, kno, i, off, n, dst) && |dst| < n && i < |ino| && off + n <= ino[i].size
    ensures AllReadable(d, ino) && AllReadable(f, kno) && |kno| == |ino| && BlockNo(off + |dst|) < MAXFILE
    ensures Needed(Tables(d, ino)[i], off, off + n) == {} ==> Tables(f, kno)[i][SlotOf(BlockNo(off + |dst|))] != 0
  {
    hide Reading, Tables, Extends, ReadSoFar, AllReadable, BlockNo, SlotOf;
    ReadingParts(sb, d, ino, f, kno, i, off, n, dst);
    OffsetParts(off + |dst|);
    hide Needed;
    if Needed(Tables(d, ino)[i], off, off + n) == {} {
      BlockThere(Tables(d, ino)[i], off, off + |dst|, off + n);
    }
  }

  lemma ReadingParts(sb: Super, d: Disk, ino: seq<Inode>, f: Disk, kno: seq<Inode>, i: nat, off: nat, n: nat,
                     dst: seq<Byte>)
    requires Reading(sb, d, ino, f, kno, i, off, n, dst)
    ensures AllReadable(d, ino) && AllReadable(f, kno) && i < |ino| == |kno| && ino[i].size <= MAXBYTES
    ensures Extends(d, ino, f, kno, i) && |dst| <= n && ReadSoFar(d, ino[i], off, dst)
    ensures 0 < |dst| < n ==> Aligned(off + |dst|)
    ensures Filling(sb, d, Tables(d, ino)[i], f, Tables(f, kno)[i], off, off + |dst|, off + n)
  {
    hide Tables, Space, Filling;
  }

  lemma ReadingStops(sb: Super, d: Disk, ino: seq<Inode>, e: Disk, jno: seq<Inode>, f: Disk, kno: seq<Inode>, i: nat,
                     off: nat, n: nat, dst: seq<Byte>)
    requires Reading(sb, d, ino, e, jno, i, off, n, dst) && |dst| < n && BlockNo(off + |dst|) < MAXFILE
    requires Extends(e, jno, f, kno, i) && Takes(sb, e, jno, f, kno, i, ForBlock(BlockNo(off + |dst|)))
    requires Tables(f, kno)[i][SlotOf(BlockNo(off + |dst|))] == 0 && AllMarked(sb, f)
    ensures ReadsTo(sb, d, ino, f, kno, i, off, n, dst)
  {
    hide Reading, Tables, Filling, Extends, ReadSoFar, AllReadable, Needed, BlockNo, SlotOf, Takes, ForBlock,
         AllMarked, FreeBlocks, Stopped,
         Aligned, ReadFills;
    ReadingParts(sb, d, ino, e, jno, i, off, n, dst);
    ExtendsTwice(d, ino, e, jno, f, kno, i);
    ExtendsKeeps(d, ino, f, kno, i);
    FillStops(sb, d, Tables(d, ino)[i], e, jno, f, kno, i, off, off + |dst|, off + n);
    ReadStopped(sb, d, ino, f, kno, i, off, n, |dst|);
  }

  lemma ReadingGoesOn(sb: Super, d: Disk, ino: seq<Inode>, e: Disk, jno: seq<Inode>, f: Disk, kno: seq<Inode>,
                      owner: map<nat, Slot>, i: nat, off: nat, n: nat, dst: seq<Byte>, m: nat)
    requires Reading(sb, d, ino, e, jno, i, off, n, dst) && |dst| < n && i < |ino| && off + n <= ino[i].size
    requires BlockNo(off + |dst|) < MAXFILE && m == Chunk(n - |dst|, off + |dst|)
    requires Extends(e, jno, f, kno, i) && Takes(sb, e, jno, f, kno, i, ForBlock(BlockNo(off + |dst|)))
    requires Good(sb, f, kno, owner, {}) && Tables(f, kno)[i][SlotOf(BlockNo(off + |dst|))] != 0
    ensures var a := Tables(f, kno)[i][SlotOf(BlockNo(off + |dst|))];
            && a < |f| && 0 < m && InBlock(off + |dst|) + m <= BSIZE
            && Reading(sb, d, ino, f, kno, i, off, n, dst + Piece(f[a], InBlock(off + |dst|), m))
  {
    hide Good, Tables, Filling, Extends, ReadSoFar, AllReadable, BlockNo, InBlock, SlotOf, Takes, ForBlock, Aligned,
         Chunk, Piece, FreeBlocks;
    ReadingParts(sb, d, ino, e, jno, i, off, n, dst);
    ExtendsTwice(d, ino, e, jno, f, kno, i);
    ExtendsKeeps(d, ino, f, kno, i);
    GoodFacts(sb, f, kno, owner);
    ChunkFits(n - |dst|, off + |dst|);
    HeldIndirect(f, kno, i, BlockNo(off + |dst|));
    BlockInside(sb, f, kno, owner, i, BlockNo(off + |dst|));
    ReadPass(d, ino, f, kno, i, off, dst, m);
    FillGoesOn(sb, d, Tables(d, ino)[i], e, jno, f, kno, i, off, off + |dst|, m, off + n);
  }

  // All comes back of a stretch without a hole.
  lemma ReadsAll(sb: Super, d: Disk, ino: seq<Inode>, f: Disk, kno: seq<Inode>, i: nat, off: nat, n: nat, k: nat)
    requires ReadFills(sb, d, ino, f, kno, i, off, n, k) && Needed(Tables(d, ino)[i], off, off + n) == {}
    ensures k == n
  {
    hide Tables, Needed, AllReadable, Stopped, Filled;
  }

  // An indirect block is in the data area.
  lemma EntryInData(sb: Super, d: Disk, ino: seq<Inode>, owner: map<nat, Slot>, i: nat)
    requires Good(sb, d, ino, owner, {}) && i < |ino| && ino[i].addrs[INDIRECT] != 0
    ensures sb.datastart <= ino[i].addrs[INDIRECT] < sb.size
  {
    EntryOf(d, ino, owner, i, 0);
  }

  // ---------- What a transaction changes ----------

  /**
   Every block and every inode on the disk that differs from what it was when the transaction
   began was passed to log_write, and nothing before the inodes was.
   */
  ghost predicate Traced(sb: Super, base: Disk, baseino: seq<Inode>, d: Disk, dino: seq<Inode>, logged: set<nat>) {
    && sb.Valid(0) && |base| == |d| == sb.size && |baseino| == |dino|
    && (forall b :: 0 <= b < |d| && d[b] != base[b] ==> b in logged)
    && (forall i :: 0 <= i < |dino| && dino[i] != baseino[i] ==> sb.IBlock(i) in logged)
    && (forall b :: b in logged ==> sb.inodestart <= b < sb.size)
  }

  lemma TracedBegins(sb: Super, d: Disk, dino: seq<Inode>)
    requires sb.Valid(0) && |d| == sb.size
    ensures Traced(sb, d, dino, d, dino, {})
  {
  }

  // A block is changed and passed to log_write.
  lemma TracedBlock(sb: Super, base: Disk, baseino: seq<Inode>, d: Disk, dino: seq<Inode>, logged: set<nat>, b: nat,
                    x: Block)
    requires Traced(sb, base, baseino, d, dino, logged) && sb.inodestart <= b < sb.size
    ensures Traced(sb, base, baseino, d[b := x], dino, logged + {b})
  {
  }

  lemma TracedInode(sb: Super, base: Disk, baseino: seq<Inode>, d: Disk, dino: seq<Inode>, logged: set<nat>, i: nat,
                    ip: Inode)
    requires Traced(sb, base, baseino, d, dino, logged) && i < |dino| && sb.Valid(|dino|)
    ensures Traced(sb, base, baseino, d, dino[i := ip], logged + {sb.IBlock(i)})
  {
    InodeBlock(sb, |dino|, i);
    hide Super.IBlock, Super.Valid;
  }

  lemma BlocksInOrder(i: nat, n: nat)
    requires i <= n
    ensures i / IPB <= n / IPB && i / BPB <= n / BPB
  {
    assert i / IPB * IPB <= i && n < n / IPB * IPB + IPB;
    assert i / BPB * BPB <= i && n < n / BPB * BPB + BPB;
  }

  lemma InodeBlock(sb: Super, n: nat, i: nat)
    requires sb.Valid(n) && i < n
    ensures sb.inodestart <= sb.IBlock(i) < sb.bmapstart < sb.size
  {
    BlocksInOrder(i, n);
    assert 0 <= sb.size / BPB;
  }

  lemma MapBlock(sb: Super, a: nat)
    requires sb.Valid(0) && a < sb.size
    ensures sb.inodestart <= sb.bmapstart <= sb.BBlock(a) < sb.datastart <= sb.size
  {
    BlocksInOrder(a, sb.size);
    assert 0 <= 0 / IPB;
  }

  // balloc of a block in the data area.
  lemma TracedAllocated(sb: Super, base: Disk, baseino: seq<Inode>, d: Disk, dino: seq<Inode>, logged: set<nat>, a: nat)
    requires Traced(sb, base, baseino, d, dino, logged)
    requires sb.Valid(0) && |d| == sb.size && sb.datastart <= a < sb.size && !Marked(sb, d, a)
    ensures Traced(sb, base, baseino, Allocated(sb, d, a), dino, logged + {sb.BBlock(a), a})
  {
    MapBlock(sb, a);
    hide Traced, BlockBit, Super.BBlock;
    TracedBlock(sb, base, baseino, d, dino, logged, sb.BBlock(a), WithBit(d[sb.BBlock(a)], a % BPB));
    TracedBlock(sb, base, baseino, WithMark(sb, d, a), dino, logged + {sb.BBlock(a)}, a, Zeroes());
    assert logged + {sb.BBlock(a)} + {a} == logged + {sb.BBlock(a), a};
  }

  lemma TracedFreed(sb: Super, base: Disk, baseino: seq<Inode>, d: Disk, dino: seq<Inode>, logged: set<nat>, a: nat)
    requires Traced(sb, base, baseino, d, dino, logged) && CanFree(sb, d, a)
    ensures Traced(sb, base, baseino, WithoutMark(sb, d, a), dino, logged + {sb.BBlock(a)})
  {
    MapBlock(sb, a);
    hide Traced, BlockBit, Super.BBlock;
    TracedBlock(sb, base, baseino, d, dino, logged, sb.BBlock(a), WithoutBit(d[sb.BBlock(a)], a % BPB));
  }

  /** itrunc so far: it has logged blocks of the free map only. */
  ghost predicate Clears(sb: Super, base: Disk, baseino: seq<Inode>, d: Disk, dino: seq<Inode>, logged: set<nat>,
                         l0: set<nat>)
  {
    Traced(sb, base, baseino, d, dino, logged) && forall b :: b in logged ==>
      b in l0 || sb.bmapstart <= b < sb.datastart
  }

  lemma ClearsNone(sb: Super, base: Disk, baseino: seq<Inode>, d: Disk, dino: seq<Inode>, logged: set<nat>)
    requires Traced(sb, base, baseino, d, dino, logged)
    ensures Clears(sb, base, baseino, d, dino, logged, logged)
  {
    hide Traced;
  }

  lemma ClearsOne(sb: Super, base: Disk, baseino: seq<Inode>, d: Disk, dino: seq<Inode>, logged: set<nat>,
                  l0: set<nat>, a: nat)
    requires Clears(sb, base, baseino, d, dino, logged, l0) && CanFree(sb, d, a)
    ensures Clears(sb, base, baseino, WithoutMark(sb, d, a), dino, logged + {sb.BBlock(a)}, l0)
  {
    MapBlock(sb, a);
    TracedFreed(sb, base, baseino, d, dino, logged, a);
    hide Traced, Marked, WithoutMark, Super.BBlock;
  }

  lemma ClearsCount(sb: Super, base: Disk, baseino: seq<Inode>, d: Disk, dino: seq<Inode>, logged: set<nat>,
                    l0: set<nat>, inode: nat)
    requires Clears(sb, base, baseino, d, dino, logged, l0)
    ensures Traced(sb, base, baseino, d, dino, logged) && sb.bmapstart <= sb.datastart
    ensures |logged + {inode} - l0| <= sb.datastart - sb.bmapstart + 1
  {
    ClearsRange(sb, base, baseino, d, dino, logged, l0);
    hide Clears, Traced;
    InRangeCount(logged - l0, sb.bmapstart, sb.datastart);
    assert logged + {inode} - l0 <= (logged - l0) + {inode};
    SubsetCount(logged + {inode} - l0, (logged - l0) + {inode});
  }

  lemma ClearsRange(sb: Super, base: Disk, baseino: seq<Inode>, d: Disk, dino: seq<Inode>, logged: set<nat>,
                    l0: set<nat>)
    requires Clears(sb, base, baseino, d, dino, logged, l0)
    ensures Traced(sb, base, baseino, d, dino, logged) && sb.bmapstart <= sb.datastart
    ensures forall b :: b in logged - l0 ==> sb.bmapstart <= b < sb.datastart
  {
    assert 0 <= sb.size / BPB;
  }

  lemma {:induction false} InRangeCount(a: set<nat>, lo: nat, hi: nat)
    requires lo <= hi && forall b :: b in a ==> lo <= b < hi
    ensures |a| <= hi - lo
    decreases hi
  {
    if lo == hi {
      assert a == {};
    } else {
      InRangeCount(a - {hi - 1}, lo, hi - 1);
    }
  }

  // `y` goes into the block that bmap gave for offset `o`.
  lemma CopyStep(sb: Super, d: Disk, ino: seq<Inode>, e: Disk, jno: seq<Inode>, owner: map<nat, Slot>, i: nat, o: nat,
                 y: seq<Byte>, a: nat)
    requires Good(sb, e, jno, owner, {}) && Extends(d, ino, e, jno, i)
    requires Takes(sb, d, ino, e, jno, i, ForBlock(BlockNo(o)))
    requires BlockNo(o) < MAXFILE && InBlock(o) + |y| <= BSIZE
    requires i < |jno| && AllReadable(e, jno) && a == Tables(e, jno)[i][SlotOf(BlockNo(o))] != 0
    ensures sb.Valid(0) && |e| == sb.size && sb.inodestart <= sb.datastart <= a < sb.size
    ensures var f := e[a := Patched(e[a], InBlock(o), y)];
            && Good(sb, f, jno, owner, {}) && AllReadable(f, jno) && Tables(f, jno) == Tables(e, jno)
            && Wrote(d, ino, f, jno, i, o, y) && Takes(sb, d, ino, f, jno, i, ForBlock(BlockNo(o)))
  {
    hide Good, Extends, Marked, Tables, Owned, Wrote, Patched, BlockNo, InBlock, Takes, ForBlock;
    OffsetParts(o);
    GoodFacts(sb, e, jno, owner);
    var f: Disk := e[a := Patched(e[a], InBlock(o), y)];
    GoodAfterCopy(sb, e, jno, owner, i, BlockNo(o), Patched(e[a], InBlock(o), y));
    GoodFacts(sb, f, jno, owner);
    WroteAfterCopy(e, jno, owner, i, BlockNo(o), InBlock(o), y);
    ExtendsThenWrote(d, ino, e, jno, f, jno, i, o, y);
    TakesFrame(sb, d, ino, e, jno, f, i, ForBlock(BlockNo(o)));
  }

  /**
   In a transaction of its own, readi calls log_write if the stretch has a hole and a block is
   free: it takes that block.
   */
  lemma HoleIsLogged(sb: Super, d: Disk, ino: seq<Inode>, dino: seq<Inode>, f: Disk, kno: seq<Inode>, logged: set<nat>,
                     i: nat, off: nat, n: nat, k: nat)
    requires ReadFills(sb, d, ino, f, kno, i, off, n, k) && Traced(sb, d, dino, f, dino, logged)
    requires Needed(Tables(d, ino)[i], off, off + n) != {} && FreeBlocks(sb, d) > 0
    ensures logged != {}
  {
    hide FreeBlocks, Tables, Needed, AllMarked, Gained, Marked, AllReadable;
    if k < n {
      NoneFree(sb, f);
    }
    assert FreeBlocks(sb, f) < FreeBlocks(sb, d);
    Differ(d, f);
  }

  lemma Differ(d: Disk, f: Disk)
    requires |d| == |f|
    ensures d != f ==> exists b :: 0 <= b < |d| && f[b] != d[b]
  {
  }

  class Fs {
    const sb: Super
    var d: Disk              // what bread returns
    var ino: seq<Inode>      // in-memory inodes, all valid
    var dino: seq<Inode>     // the inodes on the disk
    ghost var owner: map<nat, Slot>
    var logged: set<nat>         // blocks passed to log_write in this transaction
    ghost var base: Disk         // the blocks and inodes on the disk when it began
    ghost var baseino: seq<Inode>

    ghost predicate Valid()
      reads this
    {
      && sb.Valid(|ino|) && |dino| == |ino|
      && Good(sb, d, ino, owner, {})
      && (forall i :: 0 <= i < |ino| ==> ino[i].size <= MAXBYTES)
      && Traced(sb, base, baseino, d, dino, logged)
    }

    /** The file system on a disk, before any file is touched. */
    constructor (sb: Super, d: Disk, ino: seq<Inode>, ghost owner: map<nat, Slot>)
      requires sb.Valid(|ino|) && Good(sb, d, ino, owner, {}) && forall i :: 0 <= i < |ino| ==> ino[i].size <= MAXBYTES
      ensures Valid() && this.sb == sb && this.d == d && this.ino == ino && dino == ino && this.owner == owner
      ensures logged == {}
    {
      this.sb, this.d, this.ino, this.dino, this.owner := sb, d, ino, ino, owner;
      logged, base, baseino := {}, d, ino;
      new;
      GoodFacts(sb, d, ino, owner);
      TracedBegins(sb, d, ino);
      hide Good, Traced;
    }

    /** begin_op: nothing has been changed yet. */
    method Begin()
      requires Valid()
      modifies this`logged, this`base, this`baseino
      ensures Valid() && logged == {} && base == d && baseino == dino
    {
      hide Good, Traced;
      GoodFacts(sb, d, ino, owner);
      TracedBegins(sb, d, dino);
      logged, base, baseino := {}, d, dino;
    }

    // bzero
    method Bzero(b: nat)
      requires b < |d|
      modifies this`d, this`logged
      ensures d == old(d)[b := Zeroes()] && logged == old(logged) + {b}
    {
      d := d[b := Zeroes()];
      logged := logged + {b};
    }

    // The inner loop of balloc: the first clear bit of the map block for `b`.
    method ScanMap(b: nat) returns (bi: nat)
      requires MapStart(b) && b < sb.size && MarkedBefore(sb, d, b)
      ensures bi <= BPB && MarkedBefore(sb, d, b + bi)
      ensures bi < BPB && b + bi < sb.size ==> !Marked(sb, d, b + bi)
      ensures bi == BPB || b + bi <= sb.size
    {
      hide BlockBit, MapStart, Super.BBlock, Super.Valid;
      bi := 0;
      while bi < BPB && b + bi < sb.size
        invariant bi <= BPB && b + bi <= sb.size
        invariant MarkedBefore(sb, d, b + bi)
      {
        SameMapBlock(sb, b, bi);
        MapBlockInside(sb, b);
        if !BlockBit(d[sb.BBlock(b)], bi) {
          return;
        }
        bi := bi + 1;
      }
    }

    /** A zeroed block that was free, or 0 when every block is marked. */
    method Balloc() returns (a: nat)
      requires sb.Valid(0) && |d| == sb.size
      requires Marked(sb, d, 0)
      modifies this`d, this`logged
      ensures a == 0 ==> d == old(d) && logged == old(logged) && AllMarked(sb, d)
      ensures a != 0 ==> a < sb.size && !Marked(sb, old(d), a) && d == Allocated(sb, old(d), a)
      ensures a != 0 ==> logged == old(logged) + {sb.BBlock(a), a}
    {
      hide WithBit, BlockBit, Allocated, Marked, MapStart, MarkedBefore, AllMarked, Super.BBlock, Super.Valid;
      var b := 0;
      MapStarts(0);
      ScanBegins(sb, d);
      while b < sb.size
        invariant MapStart(b) && d == old(d) && logged == old(logged)
        invariant MarkedBefore(sb, d, b)
      {
        var bi := ScanMap(b);
        if bi < BPB && b + bi < sb.size {
          FoundFree(sb, d, b, bi);
          d := d[sb.BBlock(b) := WithBit(d[sb.BBlock(b)], bi)];
          logged := logged + {sb.BBlock(b)};
          Bzero(b + bi);
          return b + bi;
        }
        ScanGoesOn(sb, d, b, bi);
        MapStarts(b);
        b := b + BPB;
      }
      ScanEnds(sb, d, b);
      a := 0;
    }

    /** The block must be marked: freeing a free block is a panic. */
    method Bfree(b: nat)
      requires CanFree(sb, d, b)
      modifies this`d, this`logged
      ensures d == WithoutMark(sb, old(d), b) && logged == old(logged) + {sb.BBlock(b)}
    {
      var bi := b % BPB;
      d := d[sb.BBlock(b) := WithoutBit(d[sb.BBlock(b)], bi)];
      logged := logged + {sb.BBlock(b)};
    }

    // ip->addrs[s], allocating a block for it if there is none.
    method Addr(i: nat, s: nat) returns (addr: nat)
      requires Valid() && i < |ino| && s <= INDIRECT
      modifies this`d, this`ino, this`owner, this`logged
      ensures Valid() && Extends(old(d), old(ino), d, ino, i)
      ensures addr == Tables(d, ino)[i][s]
      ensures Tables(old(d), old(ino))[i][s] != 0 ==> addr == Tables(old(d), old(ino))[i][s]
      ensures forall r :: 0 <= r < SLOTS && r != s ==> Tables(d, ino)[i][r] == Tables(old(d), old(ino))[i][r]
      ensures addr == 0 ==> AllMarked(sb, d)
      ensures Tables(old(d), old(ino))[i][s] != 0 || FreeBlocks(sb, old(d)) == 0 ==>
        Same(old(d), old(ino), old(owner), d, ino, owner)
      ensures logged == old(logged) +
        if Tables(old(d), old(ino))[i][s] == 0 && addr != 0 then {sb.BBlock(addr), addr} else {}
      ensures Takes(sb, old(d), old(ino), d, ino, i, {s})
    {
      ghost var d0, ino0 := d, ino;
      hide Traced, Good, Extends, Marked, Allocated, Tables, Owned, WithAddr, AllMarked, Takes, FreeBlocks;
      GoodFacts(sb, d, ino, owner);
      TableEntry(d, ino, i, s);
      ExtendsSelf(d, ino, i);
      TakesNothing(sb, d, ino, i, {s});
      addr := ino[i].addrs[s];
      if addr == 0 {
        addr := Balloc();
        if addr != 0 {
          AddrStep(sb, d0, ino0, owner, i, s, addr);
          FreeInData(sb, d0, ino0, owner, addr);
          TracedAllocated(sb, base, baseino, d0, dino, old(logged), addr);
          FreeTaken(sb, d0, ino0, owner, addr);
          ino := WithAddr(ino, i, s, addr);
          owner := owner[addr := Slot(i, s)];
          GoodFacts(sb, d, ino, owner);
          TakesOne(sb, d0, ino0, d, ino, i, s);
        }
      }
    }

    // a[j] of the indirect block, allocating a block for it if there is none.
    method Entry(i: nat, j: nat) returns (addr: nat)
      requires Valid() && i < |ino| && j < NINDIRECT && ino[i].addrs[INDIRECT] != 0
      modifies this`d, this`owner, this`logged
      ensures Valid() && Extends(old(d), ino, d, ino, i)
      ensures addr == Tables(d, ino)[i][INDIRECT + 1 + j]
      ensures Tables(old(d), ino)[i][INDIRECT + 1 + j] != 0 ==> addr == Tables(old(d), ino)[i][INDIRECT + 1 + j]
      ensures forall r :: 0 <= r < SLOTS && r != INDIRECT + 1 + j ==> Tables(d, ino)[i][r] == Tables(old(d), ino)[i][r]
      ensures addr == 0 ==> AllMarked(sb, d)
      ensures Tables(old(d), ino)[i][INDIRECT + 1 + j] != 0 || FreeBlocks(sb, old(d)) == 0 ==>
        Same(old(d), ino, old(owner), d, ino, owner)
      ensures logged == old(logged) +
        if Tables(old(d), ino)[i][INDIRECT + 1 + j] == 0 && addr != 0
        then {sb.BBlock(addr), addr, ino[i].addrs[INDIRECT]} else {}
      ensures Takes(sb, old(d), ino, d, ino, i, {INDIRECT + 1 + j})
    {
      ghost var d0 := d;
      hide Traced, Good, Extends, Marked, Allocated, Tables, Owned, WithAddr, AllMarked, Word, WithWord, Takes,
           FreeBlocks;
      GoodFacts(sb, d, ino, owner);
      TakesNothing(sb, d, ino, i, {INDIRECT + 1 + j});
      ExtendsSelf(d, ino, i);
      IndirectEntry(d, ino, i, j);
      var n := ino[i].addrs[INDIRECT];
      addr := Word(d[n], j);
      if addr == 0 {
        addr := Balloc();
        if addr != 0 {
          EntryStep(sb, d0, ino, owner, i, j, addr);
          FreeInData(sb, d0, ino, owner, addr);
          TracedAllocated(sb, base, baseino, d0, dino, old(logged), addr);
          FreeTaken(sb, d0, ino, owner, addr);
          ghost var d1 := d;
          EntryInData(sb, d0, ino, owner, i);
          TracedBlock(sb, base, baseino, d, dino, logged, n, WithWord(d[n], j, addr));
          d := d[n := WithWord(d[n], j, addr)];
          FreeFrame(sb, d1, d);
          logged := logged + {n};
          owner := owner[addr := Slot(i, INDIRECT + 1 + j)];
          GoodFacts(sb, d, ino, owner);
          TakesOne(sb, d0, ino, d, ino, i, INDIRECT + 1 + j);
        }
      }
    }

    /**
     The block number of block `bn` of inode `i`, allocating it, and the indirect block, if
     need be; 0 when no block is free.  No file changes a byte.
     */
    method Bmap(i: nat, bn: nat) returns (addr: nat)
      requires Valid() && i < |ino| && bn < MAXFILE
      modifies this`d, this`ino, this`owner, this`logged
      ensures Valid() && Extends(old(d), old(ino), d, ino, i)
      ensures addr == Tables(d, ino)[i][SlotOf(bn)]
      ensures forall r :: 0 <= r < SLOTS && r != SlotOf(bn) && r != INDIRECT ==>
        Tables(d, ino)[i][r] == Tables(old(d), old(ino))[i][r]
      ensures addr == 0 ==> AllMarked(sb, d)
      ensures Tables(old(d), old(ino))[i][SlotOf(bn)] != 0 || FreeBlocks(sb, old(d)) == 0 ==>
        Same(old(d), old(ino), old(owner), d, ino, owner)
      ensures logged == old(logged) + BmapLog(sb, Tables(old(d), old(ino))[i], Tables(d, ino)[i], bn)
      ensures Takes(sb, old(d), old(ino), d, ino, i, ForBlock(bn))
    {
      hide Traced, Good, Extends, Marked, Tables, AllMarked, BmapLog, Owned, Takes, FreeBlocks, Valid, AllReadable;
      ValidParts(this);
      ghost var t := Tables(d, ino)[i];
      if bn < NDIRECT {
        addr := Addr(i, bn);
        ValidParts(this);
        LogOfDirect(sb, t, Tables(d, ino)[i], bn);
        return;
      }
      addr := BmapIndirect(i, bn - NDIRECT);
    }

    method BmapIndirect(i: nat, j: nat) returns (addr: nat)
      requires Valid() && i < |ino| && j < NINDIRECT
      modifies this`d, this`ino, this`owner, this`logged
      ensures Valid() && Extends(old(d), old(ino), d, ino, i)
      ensures addr == Tables(d, ino)[i][INDIRECT + 1 + j]
      ensures forall r :: 0 <= r < SLOTS && r != INDIRECT + 1 + j && r != INDIRECT ==>
        Tables(d, ino)[i][r] == Tables(old(d), old(ino))[i][r]
      ensures addr == 0 ==> AllMarked(sb, d)
      ensures Tables(old(d), old(ino))[i][INDIRECT + 1 + j] != 0 || FreeBlocks(sb, old(d)) == 0 ==>
        Same(old(d), old(ino), old(owner), d, ino, owner)
      ensures logged == old(logged) + BmapLog(sb, Tables(old(d), old(ino))[i], Tables(d, ino)[i], NDIRECT + j)
      ensures Takes(sb, old(d), old(ino), d, ino, i, ForBlock(NDIRECT + j))
    {
      hide Traced, Good, Extends, Marked, Tables, AllMarked, BmapLog, Owned, Takes, FreeBlocks, Valid, AllReadable;
      ValidParts(this);
      ghost var d0, ino0, t := d, ino, Tables(d, ino)[i];
      HeldIndirect(d, ino, i, NDIRECT + j);
      var indirect := Addr(i, INDIRECT);
      ValidParts(this);
      TableEntry(d, ino, i, INDIRECT);
      ghost var d1, ino1, u := d, ino, Tables(d, ino)[i];
      if indirect == 0 {
        NoIndirect(d, ino, i, j);
        LogOfIndirect(sb, t, u, u, j);
        TakesNothing(sb, d, ino, i, {});
        TakesTwice(sb, d0, ino0, d, ino, d, ino, i, {INDIRECT}, {}, ForBlock(NDIRECT + j));
        return 0;
      }
      addr := Entry(i, j);
      TakesTwice(sb, d0, ino0, d1, ino1, d, ino, i, {INDIRECT}, {INDIRECT + 1 + j}, ForBlock(NDIRECT + j));
      ExtendsTwice(d0, ino0, d1, ino1, d, ino, i);
      ValidParts(this);
      LogOfIndirect(sb, t, u, Tables(d, ino)[i], j);
    }

    // iupdate
    method Iupdate(i: nat)
      requires i < |ino| && |dino| == |ino|
      modifies this`dino, this`logged
      ensures dino == old(dino)[i := ino[i]] && logged == old(logged) + {sb.IBlock(i)}
    {
      dino := dino[i := ino[i]];
      logged := logged + {sb.IBlock(i)};
    }

    /** One pass of writei's loop: `m` bytes of `src` go to offset `o` of the file, unless no block is free. */
    method CopyIn(i: nat, o: nat, src: seq<Byte>, tot: nat, m: nat) returns (addr: nat)
      requires Valid() && i < |ino| && BlockNo(o) < MAXFILE && InBlock(o) + m <= BSIZE && tot + m <= |src|
      modifies this`d, this`ino, this`owner, this`logged
      ensures Valid() && |ino| == |old(ino)|
      ensures addr == Tables(d, ino)[i][SlotOf(BlockNo(o))]
      ensures addr != 0 ==> Wrote(old(d), old(ino), d, ino, i, o, Piece(src, tot, m))
      ensures addr != 0 && BlockNo(o) >= NDIRECT ==> Tables(d, ino)[i][INDIRECT] != 0
      ensures addr == 0 ==> Extends(old(d), old(ino), d, ino, i) && AllMarked(sb, d)
      ensures Keeps(Tables(old(d), old(ino))[i], Tables(d, ino)[i])
      ensures addr == 0 ==>
        logged == old(logged) + BmapLog(sb, Tables(old(d), old(ino))[i], Tables(d, ino)[i], BlockNo(o))
      ensures addr != 0 ==>
        logged == old(logged) + BmapLog(sb, Tables(old(d), old(ino))[i], Tables(d, ino)[i], BlockNo(o)) + {addr}
      ensures Takes(sb, old(d), old(ino), d, ino, i, ForBlock(BlockNo(o)))
    {
      hide Traced, Good, Extends, Marked, Tables, AllMarked, BmapLog, Owned, Wrote, Keeps, Piece, Patched, BlockNo,
           InBlock, Takes, AllReadable, ForBlock;
      ghost var d0, ino0, y := d, ino, Piece(src, tot, m);
      addr := Bmap(i, BlockNo(o));
      ExtendsKeeps(d0, ino0, d, ino, i);
      GoodFacts(sb, d, ino, owner);
      HeldIndirect(d, ino, i, BlockNo(o));
      if addr == 0 {
        return;
      }
      ghost var d1 := d;
      CopyStep(sb, d0, ino0, d, ino, owner, i, o, y, addr);
      TracedBlock(sb, base, baseino, d, dino, logged, addr, Patched(d[addr], InBlock(o), y));
      d := d[addr := Patched(d[addr], InBlock(o), Piece(src, tot, m))];
      logged := logged + {addr};
    }

    /**
     writei from a kernel buffer.  The bytes written replace those of the file at `off`, no
     other file changes, and fewer are written than asked for only when no block is free.
     A file without holes stays so, and then a write of at most three blocks logs at most
     ten; all files stay without holes together.
     */
    method Writei(i: nat, src: seq<Byte>, off: nat) returns (r: int)
      requires Valid() && i < |ino| && off < WORD && |src| < WORD
      modifies this`d, this`ino, this`dino, this`owner, this`logged
      ensures Valid()
      ensures r == -1 <==> off > old(ino[i].size) || off + |src| > MAXBYTES
      ensures r == -1 ==> d == old(d) && ino == old(ino) && dino == old(dino) && logged == old(logged)
      ensures -1 <= r <= |src|
      ensures r >= 0 ==>
        && OthersKept(old(d), old(ino), d, ino, i)
        && Contents(d, ino[i]) == Spliced(Contents(old(d), old(ino[i])), off, Piece(src, 0, r))
        && dino == old(dino)[i := ino[i]]
      ensures 0 <= r < |src| ==> AllMarked(sb, d) && (r > 0 ==> Aligned(off + r))
      ensures r >= 0 ==>
        (r == |src| <==> |Needed(Tables(old(d), old(ino))[i], off, off + |src|)| <= FreeBlocks(sb, old(d)))
      ensures NoHoles(Tables(old(d), old(ino))[i], old(ino[i].size)) ==>
        && NoHoles(Tables(d, ino)[i], ino[i].size)
        && (|src| <= 3 * BSIZE ==> |logged - old(logged)| <= RedoLog.MAXOPBLOCKS)
      ensures HoleFree(old(d), old(ino)) ==> HoleFree(d, ino)
    {
      hide Traced, Good, Marked, Tables, Owned, AllMarked, OthersKept, NoHoles, Contents, Spliced, Progress, Piece,
           Aligned, Needed, FreeBlocks, HoleFree;
      var n := |src|;
      if off > ino[i].size || (off + n) % WORD < off {
        return -1;
      }
      if off + n > MAXBYTES {
        return -1;
      }
      GoodFacts(sb, d, ino, owner);
      ghost var l0, d0, ino0 := logged, d, ino;
      ghost var data, maps, gained;
      var tot;
      tot, data, maps, gained := WriteLoop(i, src, off);
      ProgressCompletes(l0, d0, ino0, d, ino, logged, i, off, src, tot, data, maps, gained, sb.IBlock(i));
      var o := off + tot;
      var size := if o > ino[i].size then o else ino[i].size;
      SameGood(sb, d, ino, ino[i := ino[i].(size := size)], owner);
      ino := ino[i := ino[i].(size := size)];
      TracedInode(sb, base, baseino, d, dino, logged, i, ino[i]);
      Iupdate(i);
      if HoleFree(d0, ino0) {
        HoleFreeFile(d0, ino0, i);
        StillHoleFree(d0, ino0, d, ino, i);
      }
      r := tot;
    }

    // The loop of writei.
    method WriteLoop(i: nat, src: seq<Byte>, off: nat)
      returns (tot: nat, ghost data: set<nat>, ghost maps: set<nat>, ghost gained: nat)
      requires Valid() && i < |ino| && off + |src| <= MAXBYTES
      modifies this`d, this`ino, this`owner, this`logged
      ensures Valid() && |ino| == |old(ino)| && tot <= |src|
      ensures Progress(old(logged), old(d), old(ino), d, ino, logged, i, off, src, tot, data, maps, gained)
      ensures tot < |src| ==> AllMarked(sb, d) && (tot > 0 ==> Aligned(off + tot))
      ensures tot == |src| <==> |Needed(Tables(old(d), old(ino))[i], off, off + |src|)| <= FreeBlocks(sb, old(d))
    {
      hide Traced, Good, AllMarked, Progress, Aligned, Filling, Needed, FreeBlocks, Tables;
      GoodFacts(sb, d, ino, owner);
      ghost var l0, d0, ino0 := logged, d, ino;
      ghost var t := Tables(d, ino)[i];
      FillingBegins(sb, d, t, off, off + |src|);
      ProgressBegins(l0, d0, ino0, i, off, src);
      tot, data, maps, gained := 0, {}, {}, 0;
      while tot < |src|
        invariant Valid() && |ino| == |ino0| && tot <= |src|
        invariant 0 < tot < |src| ==> Aligned(off + tot)
        invariant Progress(l0, d0, ino0, d, ino, logged, i, off, src, tot, data, maps, gained)
        invariant AllReadable(d, ino) && Filling(sb, d0, t, d, Tables(d, ino)[i], off, off + tot, off + |src|)
      {
        var m;
        m, data, maps, gained := WritePass(i, src, off, tot, l0, d0, ino0, data, maps, gained, t);
        if m == 0 {
          return;
        }
        tot := tot + m;
      }
      FillingEnds(sb, d0, t, d, Tables(d, ino)[i], off, off + |src|);
    }

    // One pass of the loop; nothing is written when no block is free.
    method WritePass(i: nat, src: seq<Byte>, off: nat, tot: nat, ghost l0: set<nat>, ghost d0: Disk,
                     ghost ino0: seq<Inode>,
                     ghost data: set<nat>, ghost maps: set<nat>, ghost gained: nat, ghost t: seq<nat>)
      returns (m: nat, ghost data': set<nat>, ghost maps': set<nat>, ghost gained': nat)
      requires Valid() && i < |ino| && off + |src| <= MAXBYTES && tot < |src|
      requires tot > 0 ==> Aligned(off + tot)
      requires Progress(l0, d0, ino0, d, ino, logged, i, off, src, tot, data, maps, gained)
      requires AllReadable(d, ino) && |t| == SLOTS
      requires Filling(sb, d0, t, d, Tables(d, ino)[i], off, off + tot, off + |src|)
      modifies this`d, this`ino, this`owner, this`logged
      ensures Valid() && |ino| == |old(ino)| && tot + m <= |src|
      ensures Progress(l0, d0, ino0, d, ino, logged, i, off, src, tot + m, data', maps', gained')
      ensures m == 0 ==> AllMarked(sb, d)
      ensures m > 0 && tot + m < |src| ==> Aligned(off + tot + m)
      ensures m == 0 ==> |Needed(t, off, off + |src|)| > FreeBlocks(sb, d0)
      ensures m > 0 ==> AllReadable(d, ino) && Filling(sb, d0, t, d, Tables(d, ino)[i], off, off + tot + m, off + |src|)
    {
      hide Traced, Takes, Filling, Needed, FreeBlocks, ForBlock, Good, Marked, Tables, Owned, Wrote, Keeps, AllMarked,
           BmapLog, Progress, SlotOf, Extends, Add, AddMaps, Aligned, Chunk, Piece, BlockNo, InBlock, One,
           Super.BBlock, Super.Valid, AllReadable;
      ghost var d1, ino1, logged1 := d, ino, logged;
      GoodFacts(sb, d, ino, owner);
      OffsetParts(off + tot);
      ChunkFits(|src| - tot, off + tot);
      m := Chunk(|src| - tot, off + tot);
      var addr := CopyIn(i, off + tot, src, tot, m);
      GoodFacts(sb, d, ino, owner);
      ghost var u, v, bn := Tables(d1, ino1)[i], Tables(d, ino)[i], BlockNo(off + tot);
      if addr == 0 {
        FillStops(sb, d0, t, d1, ino1, d, ino, i, off, off + tot, off + |src|);
        ProgressStops(sb, l0, d0, ino0, d1, ino1, logged1, d, ino, i, off, src, tot, data, maps, gained);
        return 0, data, Add(maps, u[INDIRECT] != v[INDIRECT], sb.BBlock(v[INDIRECT])), gained;
      }
      FillGoesOn(sb, d0, t, d1, ino1, d, ino, i, off, off + tot, m, off + |src|);
      ProgressGoesOn(sb, l0, d0, ino0, d1, ino1, logged1, d, ino, i, off, src, tot, m, data, maps, gained);
      data', maps', gained' := Add(data, true, addr), AddMaps(sb, maps, u, v, bn), gained + One(u[SlotOf(bn)] == 0);
    }

    /**
     itrunc.  The blocks of inode `i` become free and no others; bfree never meets a free
     block, which is its precondition.  It logs blocks of the free map and that of the inode.
     */
    method Itrunc(i: nat)
      requires Valid() && i < |ino|
      modifies this`d, this`ino, this`dino, this`owner, this`logged
      ensures Valid() && ino == old(ino)[i := Inode(0, NoAddrs())] && dino == old(dino)[i := ino[i]]
      ensures FreesExactly(sb, old(d), d, old(owner), owner, i)
      ensures OthersKept(old(d), old(ino), d, ino, i)
      ensures HoleFree(old(d), old(ino)) ==> HoleFree(d, ino)
      ensures |logged - old(logged)| <= sb.datastart - sb.bmapstart + 1
    {
      hide Traced, Clears, Good, Freeing, Freed, Tables, FreesExactly, OthersKept, NoAddrs, Listed, AllReadable,
           HoleFree;
      assert AllReadable(d, ino) by { GoodFacts(sb, d, ino, owner); }
      ghost var d0, ino0, owner0, t := d, ino, owner, Tables(d, ino);
      ghost var l0 := logged;
      TruncateBegins(sb, d, ino, owner, i);
      ClearsNone(sb, base, baseino, d, dino, logged);
      FreeDirect(i, d0, t, l0);
      FreeIndirect(i, d0, ino0, t, l0);
      ClearsCount(sb, base, baseino, d, dino, logged, l0, sb.IBlock(i));
      TruncateDone(sb, d0, d, ino0, owner0, owner, i);
      EmptyInode(ino0, ino, i);
      ino := ino[i := Inode(0, ino[i].addrs)];
      TracedInode(sb, base, baseino, d, dino, logged, i, ino[i]);
      Iupdate(i);
      EmptyHoleFree(d0, ino0, d, ino, i);
    }

    // The direct blocks.
    method FreeDirect(i: nat, ghost d0: Disk, ghost t: seq<seq<nat>>, ghost l0: set<nat>)
      requires i < |ino| && i < |t| && |t[i]| == SLOTS && |ino[i].addrs| == NDIRECT + 1
      requires Freeing(sb, d0, t, d, owner, i, 0) && forall r :: 0 <= r <= INDIRECT ==> ino[i].addrs[r] == t[i][r]
      requires Clears(sb, base, baseino, d, dino, logged, l0)
      modifies this`d, this`ino, this`owner, this`logged
      ensures Clears(sb, base, baseino, d, dino, logged, l0)
      ensures Freeing(sb, d0, t, d, owner, i, INDIRECT)
      ensures |ino| == |old(ino)| && forall j :: 0 <= j < |ino| && j != i ==> ino[j] == old(ino)[j]
      ensures |ino[i].addrs| == NDIRECT + 1
      ensures forall r :: 0 <= r <= INDIRECT ==> ino[i].addrs[r] == if r < INDIRECT then 0 else t[i][r]
    {
      hide Clears, Freeing, Marked, CanFree;
      var s := 0;
      while s < NDIRECT
        invariant Clears(sb, base, baseino, d, dino, logged, l0)
        invariant s <= NDIRECT && |ino| == |old(ino)| && |ino[i].addrs| == NDIRECT + 1
        invariant Freeing(sb, d0, t, d, owner, i, s)
        invariant forall j :: 0 <= j < |ino| && j != i ==> ino[j] == old(ino)[j]
        invariant forall r :: 0 <= r <= INDIRECT ==> ino[i].addrs[r] == if r < s then 0 else t[i][r]
      {
        FreeNext(sb, d0, t, d, owner, i, s);
        if ino[i].addrs[s] != 0 {
          owner := owner - {t[i][s]};
          ClearsOne(sb, base, baseino, d, dino, logged, l0, ino[i].addrs[s]);
          Bfree(ino[i].addrs[s]);
          ino := WithAddr(ino, i, s, 0);
        }
        s := s + 1;
      }
    }

    // The blocks that the indirect block lists, and then that block.
    method FreeIndirect(i: nat, ghost d0: Disk, ghost ino0: seq<Inode>, ghost t: seq<seq<nat>>, ghost l0: set<nat>)
      requires i < |ino| == |ino0| && |ino[i].addrs| == NDIRECT + 1
      requires Listed(sb, d0, ino0, t, i) && Freeing(sb, d0, t, d, owner, i, INDIRECT)
      requires forall r :: 0 <= r <= INDIRECT ==> ino[i].addrs[r] == if r < INDIRECT then 0 else t[i][r]
      requires Clears(sb, base, baseino, d, dino, logged, l0)
      modifies this`d, this`ino, this`owner, this`logged
      ensures Clears(sb, base, baseino, d, dino, logged, l0)
      ensures Freed(sb, d0, t, d, owner, i)
      ensures |ino| == |old(ino)| && forall j :: 0 <= j < |ino| && j != i ==> ino[j] == old(ino)[j]
      ensures |ino[i].addrs| == NDIRECT + 1 && forall r :: 0 <= r <= INDIRECT ==> ino[i].addrs[r] == 0
    {
      hide Clears, Freeing, Freed, Marked, CanFree, Listed, Word;
      var n := ino[i].addrs[INDIRECT];
      if n == 0 {
        NoneListed(sb, d0, ino0, t, i);
        FreeLast(sb, d0, t, d, owner, i, INDIRECT);
      } else {
        FreeListed(i, n, d0, ino0, t, l0);
        FreeLast(sb, d0, t, d, owner, i, SLOTS);
        owner := owner - {n};
        ClearsOne(sb, base, baseino, d, dino, logged, l0, n);
        Bfree(n);
        ino := WithAddr(ino, i, INDIRECT, 0);
      }
    }

    method FreeListed(i: nat, n: nat, ghost d0: Disk, ghost ino0: seq<Inode>, ghost t: seq<seq<nat>>,
                      ghost l0: set<nat>)
      requires Listed(sb, d0, ino0, t, i) && Freeing(sb, d0, t, d, owner, i, INDIRECT)
      requires n == t[i][INDIRECT] != 0
      requires Clears(sb, base, baseino, d, dino, logged, l0)
      modifies this`d, this`owner, this`logged
      ensures Clears(sb, base, baseino, d, dino, logged, l0)
      ensures Freeing(sb, d0, t, d, owner, i, SLOTS)
    {
      hide Clears, Freeing, Marked, CanFree, Listed, Word;
      FreeSkip(sb, d0, t, d, owner, i);
      var j := 0;
      while j < NINDIRECT
        invariant Clears(sb, base, baseino, d, dino, logged, l0)
        invariant j <= NINDIRECT && Freeing(sb, d0, t, d, owner, i, INDIRECT + 1 + j)
      {
        ListedEntry(sb, d0, ino0, t, d, owner, i, j);
        FreeNext(sb, d0, t, d, owner, i, INDIRECT + 1 + j);
        if Word(d[n], j) != 0 {
          owner := owner - {Word(d[n], j)};
          ClearsOne(sb, base, baseino, d, dino, logged, l0, Word(d[n], j));
          Bfree(Word(d[n], j));
        }
        j := j + 1;
      }
    }

    /**
     readi into a kernel buffer: the bytes of the file at `off`.  Holes in the stretch that is
     read, and no others, are filled with zeroed blocks; the result is short exactly when they
     are more than the free blocks, and then ends at the block that is missing.  Nothing changes
     without a hole in the stretch, or without a free block; so it is where no file has a hole.
     */
    method Readi(i: nat, off: nat, n: nat) returns (dst: seq<Byte>)
      requires Valid() && i < |ino| && off < WORD && n < WORD
      modifies this`d, this`ino, this`owner, this`logged
      ensures Valid() && Extends(old(d), old(ino), d, ino, i)
      ensures |dst| <= ReadLen(old(ino[i].size), off, n)
      ensures dst == [] || ReadSoFar(old(d), old(ino[i]), off, dst)
      ensures ReadFills(sb, old(d), old(ino), d, ino, i, off, ReadLen(old(ino[i].size), off, n), |dst|)
      ensures Needed(Tables(old(d), old(ino))[i], off, off + ReadLen(old(ino[i].size), off, n)) == {}
              || FreeBlocks(sb, old(d)) == 0 ==>
        Same(old(d), old(ino), old(owner), d, ino, owner) && logged == old(logged)
      ensures HoleFree(old(d), old(ino)) ==>
        && |dst| == ReadLen(old(ino[i].size), off, n)
        && Same(old(d), old(ino), old(owner), d, ino, owner) && logged == old(logged)
    {
      hide Traced, Good, Extends, Tables, AllMarked, ReadSoFar, ReadFills, Needed, FreeBlocks, HoleFree, Valid,
           AllReadable;
      ValidParts(this);
      ExtendsSelf(d, ino, i);
      ghost var d0, ino0 := d, ino;
      if off > ino[i].size || (off + n) % WORD < off {
        ReadsNothing(sb, d, ino, i, off);
        return [];
      }
      var left := if off + n > ino[i].size then ino[i].size - off else n;
      dst := ReadLoop(i, off, left);
      if HoleFree(d0, ino0) {
        HoleFreeNeeds(d0, ino0, i, off, off + left);
        ReadsAll(sb, d0, ino0, d, ino, i, off, left, |dst|);
      }
    }

    // The loop of readi.
    method ReadLoop(i: nat, off: nat, n: nat) returns (dst: seq<Byte>)
      requires Valid() && i < |ino| && off + n <= ino[i].size
      modifies this`d, this`ino, this`owner, this`logged
      ensures Valid() && ReadsTo(sb, old(d), old(ino), d, ino, i, off, n, dst)
      ensures Needed(Tables(old(d), old(ino))[i], off, off + n) == {} || FreeBlocks(sb, old(d)) == 0 ==>
        Same(old(d), old(ino), old(owner), d, ino, owner) && logged == old(logged)
    {
      hide Traced, Good, Extends, Tables, AllReadable, Needed, FreeBlocks, Reading, ReadSoFar, ReadFills, Valid;
      ValidParts(this);
      ghost var d0, ino0 := d, ino;
      ReadingBegins(sb, d, ino, i, off, n);
      dst := [];
      while |dst| < n
        invariant Valid() && |ino| == |ino0| && |dst| <= n && Reading(sb, d0, ino0, d, ino, i, off, n, dst)
        invariant Needed(Tables(d0, ino0)[i], off, off + n) == {} || FreeBlocks(sb, d0) == 0 ==>
          Same(d0, ino0, old(owner), d, ino, owner) && logged == old(logged)
      {
        var y := ReadBlock(i, off, n, dst, d0, ino0);
        if y == [] {
          return;
        }
        dst := dst + y;
      }
      ReadingEnds(sb, d0, ino0, d, ino, i, off, n, dst);
    }

    // One pass of it: the next bytes, or none when bmap finds no free block.
    method ReadBlock(i: nat, off: nat, n: nat, dst: seq<Byte>, ghost d0: Disk, ghost ino0: seq<Inode>)
      returns (y: seq<Byte>)
      requires Valid() && i < |ino| == |ino0| && off + n <= ino0[i].size && |dst| < n
      requires Reading(sb, d0, ino0, d, ino, i, off, n, dst)
      modifies this`d, this`ino, this`owner, this`logged
      ensures Valid() && |ino| == |ino0|
      ensures y == [] ==> ReadsTo(sb, d0, ino0, d, ino, i, off, n, dst)
      ensures y != [] ==> |dst + y| <= n && Reading(sb, d0, ino0, d, ino, i, off, n, dst + y)
      ensures AllReadable(d0, ino0) &&
        (Needed(Tables(d0, ino0)[i], off, off + n) == {} || FreeBlocks(sb, old(d)) == 0 ==>
        Same(old(d), old(ino), old(owner), d, ino, owner) && logged == old(logged))
    {
      hide Traced, Good, Extends, Tables, AllMarked, AllReadable, Piece, BlockNo, InBlock, SlotOf, BmapLog, Takes,
           ForBlock, Chunk, Needed,
           FreeBlocks, Reading, ReadsTo, Valid;
      ghost var d1, ino1, o := d, ino, off + |dst|;
      ValidParts(this);
      ReadingAt(sb, d0, ino0, d, ino, i, off, n, dst);
      var addr := Bmap(i, BlockNo(off + |dst|));
      ValidParts(this);
      NothingLogged(sb, d1, ino1, i, BlockNo(o));
      if addr == 0 {
        ReadingStops(sb, d0, ino0, d1, ino1, d, ino, i, off, n, dst);
        return [];
      }
      var m := Chunk(n - |dst|, off + |dst|);
      ReadingGoesOn(sb, d0, ino0, d1, ino1, d, ino, owner, i, off, n, dst, m);
      y := Piece(d[addr], InBlock(off + |dst|), m);
    }

    /**
     filewrite: the write is cut into transactions of at most three blocks.  `off` is the
     new file offset and `ops` the number of blocks that each transaction logs, which for a
     file without holes is at most MAXOPBLOCKS.
     */
    method FileWrite(i: nat, src: seq<Byte>, from: nat) returns (ret: int, off: nat, ghost ops: seq<nat>)
      requires Valid() && i < |ino| && from < WORD && |src| < WORD / 2
      modifies this
      ensures Valid() && from <= off <= from + |src|
      ensures ret == if off == from + |src| then |src| else -1
      ensures WroteFile(old(d), old(ino), d, ino, i, from, src, off - from)
      ensures off < from + |src| ==> AllMarked(sb, d) || from > old(ino[i].size) || from + |src| > MAXBYTES
      ensures NoHoles(Tables(old(d), old(ino))[i], old(ino[i].size)) ==>
        NoHoles(Tables(d, ino)[i], ino[i].size) && forall k :: 0 <= k < |ops| ==> ops[k] <= RedoLog.MAXOPBLOCKS
      ensures HoleFree(old(d), old(ino)) ==> HoleFree(d, ino)
    {
      hide Traced, Good, Tables, AllMarked, NoHoles, WroteFile, OthersKept, Contents, Spliced, Piece, AllReadable,
           Needed, FreeBlocks, Aligned, Valid, HoleFree;
      ValidParts(this);
      ghost var d0, ino0 := d, ino;
      WroteFileBegins(d, ino, i, from, src);
      var max := (RedoLog.MAXOPBLOCKS - 1 - 1 - 2) / 2 * BSIZE;
      var done := 0;
      off, ops := from, [];
      while done < |src|
        invariant Valid() && AllReadable(d, ino) && |ino| == |dino| == |ino0| && ino[i].size <= MAXBYTES
        invariant done <= |src| && off == from + done
        invariant WroteFile(d0, ino0, d, ino, i, from, src, done)
        invariant done > 0 ==> from <= ino0[i].size
        invariant done == 0 ==> d == d0 && ino == ino0
        invariant NoHoles(Tables(d0, ino0)[i], ino0[i].size) ==>
          NoHoles(Tables(d, ino)[i], ino[i].size) && forall k :: 0 <= k < |ops| ==> ops[k] <= RedoLog.MAXOPBLOCKS
        invariant HoleFree(d0, ino0) ==> HoleFree(d, ino)
      {
        ghost var d1, ino1 := d, ino;
        var n1 := if |src| - done > max then max else |src| - done;
        if done > 0 {
          WroteFileReaches(d0, ino0, d, ino, i, from, src, done);
        }
        Begin();
        var r := Writei(i, Piece(src, done, n1), off);
        ValidParts(this);
        ops := ops + [|logged|];
        if r > 0 {
          off := off + r;
        }
        if r >= 0 {
          WroteFileGoesOn(d0, ino0, d1, ino1, d, ino, i, from, src, done, n1, r);
        }
        if r != n1 {
          break;
        }
        done := done + r;
      }
      ret := if done == |src| then |src| else -1;
    }
  }

  lemma ValidParts(fs: Fs)
    requires fs.Valid()
    ensures AllReadable(fs.d, fs.ino) && Good(fs.sb, fs.d, fs.ino, fs.owner, {}) && |fs.dino| == |fs.ino|
    ensures forall i :: 0 <= i < |fs.ino| ==> fs.ino[i].size <= MAXBYTES
  {
    hide Traced, Good;
    GoodFacts(fs.sb, fs.d, fs.ino, fs.owner);
  }
}
