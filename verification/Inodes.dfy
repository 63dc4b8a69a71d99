/**
 What the blocks of an xv6 disk mean (labo2/kernel/fs.h, labo2/kernel/fs.c): which blocks
 the free map marks, which blocks an inode holds, and which bytes make up a file.
 */
module Inodes {
  import opened Blocks

  const NDIRECT: nat := 12
  const MAXFILE: nat := NDIRECT + NINDIRECT
  const MAXBYTES: nat := MAXFILE * BSIZE
  const IPB: nat := BSIZE / 64

  type Disk = seq<Block>

  // struct superblock: [ boot | super | log | inodes | free map | data ].
  datatype Super = Super(size: nat, inodestart: nat, bmapstart: nat, datastart: nat) {
    predicate Valid(ninodes: nat) {
      && 0 < inodestart && inodestart + ninodes / IPB < bmapstart
      && bmapstart + size / BPB < datastart <= size < WORD
    }

    function BBlock(b: nat): nat {
      b / BPB + bmapstart
    }

    function IBlock(i: nat): nat {
      i / IPB + inodestart
    }
  }

  // The part of struct inode that locates contents.
  datatype Inode = Inode(size: nat, addrs: seq<nat>)

  // Slot `s` of inode `i`: 0-11 direct, 12 the indirect block, 13 and up its entries.
  datatype Slot = Slot(i: nat, s: nat)

  const INDIRECT: nat := NDIRECT
  const SLOTS: nat := NDIRECT + 1 + NINDIRECT

  // The slot that holds block `bn` of a file.
  function SlotOf(bn: nat): (s: nat)
    ensures bn < MAXFILE ==> s < SLOTS && s != INDIRECT
  {
    if bn < NDIRECT then bn else bn + 1
  }

  // ---------- Reading a disk ----------

  predicate Marked(sb: Super, d: Disk, b: nat)
    requires |d| == sb.size && b < sb.size && sb.BBlock(b) < sb.size
  {
    BlockBit(d[sb.BBlock(b)], b % BPB)
  }

  function Words(b: Block): (w: seq<nat>)
    ensures |w| == NINDIRECT
  {
    seq(NINDIRECT, j requires 0 <= j < NINDIRECT => Word(b, j))
  }

  predicate Readable(d: Disk, ip: Inode) {
    |ip.addrs| == NDIRECT + 1 && ip.addrs[INDIRECT] < |d|
  }

  // Every block number an inode holds, by slot; 0 where there is none.
  function Table(d: Disk, ip: Inode): (t: seq<nat>)
    requires Readable(d, ip)
    ensures |t| == SLOTS
  {
    ip.addrs + if ip.addrs[INDIRECT] == 0 then seq(NINDIRECT, j => 0) else Words(d[ip.addrs[INDIRECT]])
  }

  predicate AllReadable(d: Disk, ino: seq<Inode>) {
    forall i :: 0 <= i < |ino| ==> Readable(d, ino[i])
  }

  function Tables(d: Disk, ino: seq<Inode>): (t: seq<seq<nat>>)
    requires AllReadable(d, ino)
    ensures |t| == |ino| && forall i :: 0 <= i < |t| ==> |t[i]| == SLOTS
  {
    seq(|ino|, i requires 0 <= i < |ino| => Table(d, ino[i]))
  }

  function ByteAt(d: Disk, t: seq<nat>, k: nat): Byte
    requires |t| == SLOTS && k < MAXBYTES
  {
    var a := t[SlotOf(k / BSIZE)];
    if a == 0 || a >= |d| then 0 else d[a][k % BSIZE]
  }

  // All the bytes a file could have, whatever its size; a missing block reads as zeroes.
  function Space(d: Disk, t: seq<nat>): (s: seq<Byte>)
    requires |t| == SLOTS
    ensures |s| == MAXBYTES
  {
    seq(MAXBYTES, k requires 0 <= k < MAXBYTES => ByteAt(d, t, k))
  }

  function Contents(d: Disk, ip: Inode): (c: seq<Byte>)
    requires Readable(d, ip) && ip.size <= MAXBYTES
    ensures |c| == ip.size
  {
    Space(d, Table(d, ip))[..ip.size]
  }

  // No block below the size is missing.
  predicate NoHoles(t: seq<nat>, size: nat)
    requires |t| == SLOTS && size <= MAXBYTES
  {
    forall bn :: 0 <= bn < MAXFILE && bn * BSIZE < size ==> t[SlotOf(bn)] != 0
  }

  // No file misses a block below its size.
  ghost predicate HoleFree(d: Disk, ino: seq<Inode>) {
    && AllReadable(d, ino)
    && forall i :: 0 <= i < |ino| ==> ino[i].size <= MAXBYTES && NoHoles(Tables(d, ino)[i], ino[i].size)
  }

  // ---------- Ownership ----------

  // `owner` says which slot holds each block in use: no block is held twice.
  ghost predicate Owned(t: seq<seq<nat>>, owner: map<nat, Slot>) {
    && (forall i, s :: 0 <= i < |t| && 0 <= s < |t[i]| && t[i][s] != 0 ==>
          t[i][s] in owner && owner[t[i][s]] == Slot(i, s))
    && (forall a :: a in owner ==>
          (a != 0 && owner[a].i < |t| && owner[a].s < |t[owner[a].i]| && t[owner[a].i][owner[a].s] == a))
  }

  ghost predicate InDataArea(sb: Super, used: set<nat>) {
    forall a :: a in used ==> sb.datastart <= a < sb.size
  }

  // The free map marks the blocks before the data area and the `used` ones.
  ghost predicate MapMatches(sb: Super, d: Disk, used: set<nat>)
    requires |d| == sb.size && sb.Valid(0)
  {
    forall a :: 0 <= a < sb.size ==> (Marked(sb, d, a) <==> a < sb.datastart || a in used)
  }

  /**
   The state of the file system: blocks in use are in the data area, each is held by
   exactly one slot of one inode, and together with those of `pending`, allocated but not
   yet held, they are the ones that the free map marks.
   */
  ghost predicate GoodTables(sb: Super, d: Disk, t: seq<seq<nat>>, owner: map<nat, Slot>, pending: set<nat>) {
    && sb.Valid(0) && |d| == sb.size
    && Owned(t, owner)
    && InDataArea(sb, owner.Keys + pending)
    && owner.Keys !! pending
    && MapMatches(sb, d, owner.Keys + pending)
  }

  ghost predicate Good(sb: Super, d: Disk, ino: seq<Inode>, owner: map<nat, Slot>, pending: set<nat>) {
    AllReadable(d, ino) && GoodTables(sb, d, Tables(d, ino), owner, pending)
  }

  // ---------- Updates of the tables ----------

  function WithEntry(t: seq<seq<nat>>, i: nat, s: nat, a: nat): (u: seq<seq<nat>>)
    requires i < |t| && s < |t[i]|
    ensures |u| == |t| && |u[i]| == |t[i]|
    ensures forall j, r :: 0 <= j < |t| && 0 <= r < |t[j]| && !(j == i && r == s) ==>
      |u[j]| == |t[j]| && u[j][r] == t[j][r]
  {
    var row: seq<nat> := t[i][s := a];
    t[i := row]
  }

  lemma TakeSlot(t: seq<seq<nat>>, owner: map<nat, Slot>, i: nat, s: nat, a: nat)
    requires Owned(t, owner) && i < |t| && s < |t[i]| && t[i][s] == 0
    requires a != 0 && a !in owner
    ensures Owned(WithEntry(t, i, s, a), owner[a := Slot(i, s)])
  {
  }

  lemma DropSlot(t: seq<seq<nat>>, owner: map<nat, Slot>, i: nat, s: nat)
    requires Owned(t, owner) && i < |t| && s < |t[i]| && t[i][s] != 0
    ensures t[i][s] in owner
    ensures Owned(WithEntry(t, i, s, 0), owner - {t[i][s]})
  {
  }

  // ---------- What a change of some blocks leaves alone ----------

  // `e` is `d` except at blocks that no inode holds.
  ghost predicate KeepsOwned(d: Disk, e: Disk, used: set<nat>) {
    |d| == |e| && forall a :: a in used && a < |d| ==> e[a] == d[a]
  }

  lemma TablesKept(d: Disk, e: Disk, ino: seq<Inode>, owner: map<nat, Slot>)
    requires AllReadable(d, ino) && Owned(Tables(d, ino), owner) && KeepsOwned(d, e, owner.Keys)
    ensures AllReadable(e, ino) && Tables(e, ino) == Tables(d, ino)
  {
    forall i | 0 <= i < |ino| ensures Table(e, ino[i]) == Table(d, ino[i]) {
      assert Tables(d, ino)[i][INDIRECT] == ino[i].addrs[INDIRECT];
    }
  }

  lemma SpaceKept(d: Disk, e: Disk, t: seq<seq<nat>>, owner: map<nat, Slot>, i: nat)
    requires Owned(t, owner) && KeepsOwned(d, e, owner.Keys) && i < |t| && |t[i]| == SLOTS
    ensures Space(e, t[i]) == Space(d, t[i])
  {
    forall k | 0 <= k < MAXBYTES ensures ByteAt(e, t[i], k) == ByteAt(d, t[i], k) {
      assert t[i][SlotOf(k / BSIZE)] != 0 ==> t[i][SlotOf(k / BSIZE)] in owner;
    }
  }

  // ---------- Steps ----------

  function WithMark(sb: Super, d: Disk, a: nat): (e: Disk)
    requires |d| == sb.size && sb.Valid(0) && a < sb.size && !Marked(sb, d, a)
    ensures |e| == |d|
  {
    d[sb.BBlock(a) := WithBit(d[sb.BBlock(a)], a % BPB)]
  }

  // What bfree demands: freeing a free block is a panic.
  predicate CanFree(sb: Super, d: Disk, a: nat) {
    |d| == sb.size && sb.Valid(0) && a < sb.size && Marked(sb, d, a)
  }

  function WithoutMark(sb: Super, d: Disk, a: nat): (e: Disk)
    requires CanFree(sb, d, a)
    ensures |e| == |d|
  {
    d[sb.BBlock(a) := WithoutBit(d[sb.BBlock(a)], a % BPB)]
  }

  lemma MarkOne(sb: Super, d: Disk, a: nat)
    requires |d| == sb.size && sb.Valid(0) && a < sb.size && !Marked(sb, d, a)
    ensures forall b :: 0 <= b < sb.size ==> (Marked(sb, WithMark(sb, d, a), b) <==> b == a || Marked(sb, d, b))
    ensures forall b :: sb.datastart <= b < sb.size ==> WithMark(sb, d, a)[b] == d[b]
  {
    forall b | 0 <= b < sb.size
      ensures Marked(sb, WithMark(sb, d, a), b) <==> b == a || Marked(sb, d, b)
    {
      MarkedAt(sb, d, a, b);
    }
    hide Marked, BlockBit, WithBit;
  }

  lemma MarkedAt(sb: Super, d: Disk, a: nat, b: nat)
    requires |d| == sb.size && sb.Valid(0) && a < sb.size && b < sb.size && !Marked(sb, d, a)
    ensures Marked(sb, WithMark(sb, d, a), b) <==> b == a || Marked(sb, d, b)
  {
    hide BlockBit, WithBit;
    SameBit(sb, a, b);
  }

  lemma UnmarkOne(sb: Super, d: Disk, a: nat)
    requires CanFree(sb, d, a)
    ensures forall b :: 0 <= b < sb.size ==> (Marked(sb, WithoutMark(sb, d, a), b) <==> b != a && Marked(sb, d, b))
    ensures forall b :: sb.datastart <= b < sb.size ==> WithoutMark(sb, d, a)[b] == d[b]
  {
    hide BlockBit, WithoutMark;
    forall b | 0 <= b < sb.size
      ensures Marked(sb, WithoutMark(sb, d, a), b) <==> b != a && Marked(sb, d, b)
    {
      UnmarkedAt(sb, d, a, b);
    }
    MapOnly(sb, d, a);
  }

  lemma MapOnly(sb: Super, d: Disk, a: nat)
    requires CanFree(sb, d, a)
    ensures |d| == sb.size && forall b :: sb.datastart <= b < sb.size ==> WithoutMark(sb, d, a)[b] == d[b]
  {
    hide BlockBit, WithoutBit;
  }

  lemma UnmarkedAt(sb: Super, d: Disk, a: nat, b: nat)
    requires CanFree(sb, d, a) && b < sb.size
    ensures sb.BBlock(b) < sb.size && |d| == sb.size
    ensures Marked(sb, WithoutMark(sb, d, a), b) <==> b != a && Marked(sb, d, b)
  {
    hide BlockBit, WithoutBit;
    SameBit(sb, a, b);
  }

  // A block number is its map block and its bit there.
  lemma SameBit(sb: Super, a: nat, b: nat)
    ensures sb.BBlock(b) == sb.BBlock(a) && b % BPB == a % BPB <==> b == a
  {
  }

  lemma AllocateMatches(sb: Super, d: Disk, used: set<nat>, a: nat)
    requires sb.Valid(0) && |d| == sb.size && MapMatches(sb, d, used) && a < sb.size && !Marked(sb, d, a)
    ensures sb.datastart <= a && a !in used
    ensures MapMatches(sb, WithMark(sb, d, a)[a := Zeroes()], used + {a})
  {
    MarkOne(sb, d, a);
    var m := WithMark(sb, d, a);
    var e := m[a := Zeroes()];
    hide WithMark, Marked;
    forall b | 0 <= b < sb.size
      ensures Marked(sb, e, b) <==> b < sb.datastart || b in used + {a}
    {
      MarkedFrame(sb, m, e, b);
    }
  }

  lemma MarkedFrame(sb: Super, d: Disk, e: Disk, b: nat)
    requires |d| == |e| == sb.size && sb.Valid(0) && b < sb.size
    requires forall c :: 0 <= c < sb.datastart ==> e[c] == d[c]
    ensures Marked(sb, e, b) <==> Marked(sb, d, b)
  {
    assert sb.BBlock(b) < sb.datastart;
  }

  // balloc: mark a free block and zero it.
  lemma AllocateStep(sb: Super, d: Disk, t: seq<seq<nat>>, owner: map<nat, Slot>, a: nat)
    requires GoodTables(sb, d, t, owner, {}) && a < sb.size && !Marked(sb, d, a)
    ensures sb.datastart <= a && a !in owner
    ensures var e := WithMark(sb, d, a)[a := Zeroes()];
            KeepsOwned(d, e, owner.Keys) && GoodTables(sb, e, t, owner, {a})
  {
    assert owner.Keys + {} == owner.Keys;
    AllocateMatches(sb, d, owner.Keys, a);
    MarkOne(sb, d, a);
    hide WithMark, Owned, MapMatches, Marked;
  }

  // bfree: the slot that held the block holds it no longer.
  lemma FreeStep(sb: Super, d: Disk, t: seq<seq<nat>>, owner: map<nat, Slot>, i: nat, s: nat)
    requires GoodTables(sb, d, t, owner, {}) && i < |t| && s < |t[i]| && t[i][s] != 0
    ensures var a := t[i][s];
            && a in owner && owner[a] == Slot(i, s) && CanFree(sb, d, a)
            && KeepsOwned(d, WithoutMark(sb, d, a), owner.Keys)
            && GoodTables(sb, WithoutMark(sb, d, a), WithEntry(t, i, s, 0), owner - {a}, {})
  {
    var a := t[i][s];
    assert owner.Keys + {} == owner.Keys;
    UnmarkOne(sb, d, a);
    DropSlot(t, owner, i, s);
    assert (owner - {a}).Keys + {} == owner.Keys - {a};
  }

  // A pending block goes into a slot: the free map does not change.
  lemma SettlePending(sb: Super, d: Disk, e: Disk, t: seq<seq<nat>>, owner: map<nat, Slot>, i: nat, s: nat, a: nat)
    requires GoodTables(sb, d, t, owner, {a}) && i < |t| && s < |t[i]| && t[i][s] == 0
    requires |e| == |d| && forall b :: 0 <= b < sb.datastart ==> e[b] == d[b]
    ensures GoodTables(sb, e, WithEntry(t, i, s, a), owner[a := Slot(i, s)], {})
  {
    TakeSlot(t, owner, i, s, a);
    assert owner[a := Slot(i, s)].Keys + {} == owner.Keys + {a};
    forall b | 0 <= b < sb.size ensures Marked(sb, e, b) <==> Marked(sb, d, b) {
      MarkedFrame(sb, d, e, b);
    }
  }

  // ip->addrs[s] = a
  lemma SetAddr(d: Disk, ino: seq<Inode>, i: nat, s: nat, a: nat)
    requires AllReadable(d, ino) && i < |ino| && s <= INDIRECT && a < |d|
    requires s == INDIRECT ==>
      (ino[i].addrs[s] == 0 && d[a] == Zeroes()) || (a == 0 && forall r :: INDIRECT < r < SLOTS ==>
        Table(d, ino[i])[r] == 0)
    ensures var ip := ino[i].(addrs := ino[i].addrs[s := a]);
            && AllReadable(d, ino[i := ip])
            && Tables(d, ino[i := ip]) == WithEntry(Tables(d, ino), i, s, a)
  {
    var ip := ino[i].(addrs := ino[i].addrs[s := a]);
    SetTable(d, ino[i], s, a);
    hide Table;
    EntrySet(Tables(d, ino), Tables(d, ino[i := ip]), i, s, a);
  }

  lemma SetTable(d: Disk, ip: Inode, s: nat, a: nat)
    requires Readable(d, ip) && s <= INDIRECT && a < |d|
    requires s == INDIRECT ==>
      (ip.addrs[s] == 0 && d[a] == Zeroes()) || (a == 0 && forall r :: INDIRECT < r < SLOTS ==> Table(d, ip)[r] == 0)
    ensures Table(d, ip.(addrs := ip.addrs[s := a])) == Table(d, ip)[s := a]
  {
    ZeroWords();
  }

  // Only indirect blocks `e` of the blocks in use differ.
  ghost predicate KeepsData(d: Disk, e: Disk, owner: map<nat, Slot>) {
    |d| == |e| && forall a :: a in owner && owner[a].s != INDIRECT && a < |d| ==> e[a] == d[a]
  }

  ghost predicate Shaped(t: seq<seq<nat>>) {
    forall i :: 0 <= i < |t| ==> |t[i]| == SLOTS
  }

  // A zeroed block in an empty slot changes no byte of any file.
  lemma SpaceAfterTake(d: Disk, e: Disk, t: seq<seq<nat>>, owner: map<nat, Slot>, i: nat, s: nat, a: nat, j: nat)
    requires Shaped(t) && Owned(t, owner) && KeepsData(d, e, owner)
    requires i < |t| && s < SLOTS && t[i][s] == 0 && a < |d| && e[a] == Zeroes() && j < |t|
    ensures Space(e, WithEntry(t, i, s, a)[j]) == Space(d, t[j])
  {
    var u := WithEntry(t, i, s, a);
    forall k | 0 <= k < MAXBYTES ensures ByteAt(e, u[j], k) == ByteAt(d, t[j], k) {
      var r := SlotOf(k / BSIZE);
      if !(j == i && r == s) {
        assert u[j][r] == t[j][r];
        assert t[j][r] != 0 ==> owner[t[j][r]] == Slot(j, r);
      }
    }
  }

  lemma SetWordTable(d: Disk, ip: Inode, j: nat, a: nat)
    requires Readable(d, ip) && j < NINDIRECT && a < WORD && ip.addrs[INDIRECT] != 0
    ensures var n := ip.addrs[INDIRECT];
            Table(d[n := WithWord(d[n], j, a)], ip) == Table(d, ip)[INDIRECT + 1 + j := a]
  {
    var n := ip.addrs[INDIRECT];
    var c := WithWord(d[n], j, a);
    assert Words(c) == Words(d[n])[j := a];
  }

  // A table depends on one block only.
  lemma TableFrame(d: Disk, ip: Inode, n: nat, b: Block)
    requires Readable(d, ip) && n < |d| && (ip.addrs[INDIRECT] == n ==> n == 0)
    ensures Readable(d[n := b], ip) && Table(d[n := b], ip) == Table(d, ip)
  {
  }

  // ((uint*)data)[j] = a in the indirect block of inode `i`.
  lemma SetWord(d: Disk, ino: seq<Inode>, owner: map<nat, Slot>, i: nat, j: nat, a: nat)
    requires AllReadable(d, ino) && Owned(Tables(d, ino), owner)
    requires i < |ino| && j < NINDIRECT && a < WORD && ino[i].addrs[INDIRECT] != 0
    ensures var n := ino[i].addrs[INDIRECT];
            var e := d[n := WithWord(d[n], j, a)];
            && n in owner && owner[n] == Slot(i, INDIRECT)
            && KeepsData(d, e, owner) && AllReadable(e, ino)
            && Tables(e, ino) == WithEntry(Tables(d, ino), i, INDIRECT + 1 + j, a)
  {
    hide Table, WithWord, Owned, Word, Words;
    var n := ino[i].addrs[INDIRECT];
    var e := d[n := WithWord(d[n], j, a)];
    var t := Tables(d, ino);
    TableHead(d, ino[i]);
    HeldBy(t, owner, i, INDIRECT);
    SetWordTable(d, ino[i], j, a);
    forall k | 0 <= k < |ino| && k != i ensures Readable(e, ino[k]) && Table(e, ino[k]) == Table(d, ino[k]) {
      TableHead(d, ino[k]);
      if ino[k].addrs[INDIRECT] != 0 {
        HeldBy(t, owner, k, INDIRECT);
      }
      TableFrame(d, ino[k], n, e[n]);
    }
    EntrySet(t, Tables(e, ino), i, INDIRECT + 1 + j, a);
  }

  lemma TableHead(d: Disk, ip: Inode)
    requires Readable(d, ip)
    ensures Table(d, ip)[INDIRECT] == ip.addrs[INDIRECT]
  {
  }

  lemma EntrySet(t: seq<seq<nat>>, u: seq<seq<nat>>, i: nat, s: nat, a: nat)
    requires i < |t| && s < |t[i]| && |u| == |t| && u[i] == t[i][s := a]
    requires forall k :: 0 <= k < |t| && k != i ==> u[k] == t[k]
    ensures u == WithEntry(t, i, s, a)
  {
  }

  // A write into a data block.
  lemma DataBlock(d: Disk, ino: seq<Inode>, owner: map<nat, Slot>, i: nat, bn: nat, b: Block)
    requires AllReadable(d, ino) && Owned(Tables(d, ino), owner)
    requires i < |ino| && bn < MAXFILE && Tables(d, ino)[i][SlotOf(bn)] != 0 && Tables(d, ino)[i][SlotOf(bn)] < |d|
    ensures var a := Tables(d, ino)[i][SlotOf(bn)];
            && a in owner && owner[a] == Slot(i, SlotOf(bn))
            && AllReadable(d[a := b], ino) && Tables(d[a := b], ino) == Tables(d, ino)
  {
    var t := Tables(d, ino);
    var a := t[i][SlotOf(bn)];
    forall k | 0 <= k < |ino| ensures Table(d[a := b], ino[k]) == Table(d, ino[k]) {
      assert t[k][INDIRECT] == ino[k].addrs[INDIRECT];
    }
  }

  // The block `b` with the bytes from offset `o` on replaced by `x`.
  function Patched<T>(b: seq<T>, o: nat, x: seq<T>): (c: seq<T>)
    requires o + |x| <= |b|
    ensures |c| == |b|
  {
    b[..o] + x + b[o + |x|..]
  }

  lemma SpaceAfterWrite(d: Disk, t: seq<seq<nat>>, owner: map<nat, Slot>, i: nat, bn: nat, o: nat, x: seq<Byte>)
    requires Shaped(t) && Owned(t, owner) && i < |t| && bn < MAXFILE
    requires t[i][SlotOf(bn)] != 0 && t[i][SlotOf(bn)] < |d| && o + |x| <= BSIZE
    ensures bn * BSIZE + o + |x| <= MAXBYTES
    ensures var a := t[i][SlotOf(bn)];
            Space(d[a := Patched(d[a], o, x)], t[i]) == Patched(Space(d, t[i]), bn * BSIZE + o, x)
  {
    var a := t[i][SlotOf(bn)];
    var e := d[a := Patched(d[a], o, x)];
    var p := Patched(Space(d, t[i]), bn * BSIZE + o, x);
    forall k | 0 <= k < MAXBYTES ensures ByteAt(e, t[i], k) == p[k] {
      var r := SlotOf(k / BSIZE);
      assert t[i][r] == a && a != 0 ==> Slot(i, r) == owner[a] == Slot(i, SlotOf(bn));
      assert Space(d, t[i])[k] == ByteAt(d, t[i], k);
    }
  }

  lemma SpaceOfOthers(d: Disk, t: seq<seq<nat>>, owner: map<nat, Slot>, i: nat, bn: nat, b: Block, j: nat)
    requires Shaped(t) && Owned(t, owner) && i < |t| && bn < MAXFILE && j < |t| && j != i
    requires t[i][SlotOf(bn)] != 0 && t[i][SlotOf(bn)] < |d|
    ensures Space(d[t[i][SlotOf(bn)] := b], t[j]) == Space(d, t[j])
  {
    var a := t[i][SlotOf(bn)];
    forall k | 0 <= k < MAXBYTES ensures ByteAt(d[a := b], t[j], k) == ByteAt(d, t[j], k) {
      var r := SlotOf(k / BSIZE);
      assert t[j][r] != a;
    }
  }

  // ---------- Allocation on behalf of one inode ----------

  /**
   Inode `i` gained blocks, all zeroes: `f`, `jno` are the disk and inodes after, and no
   byte of any file, no size, no block already held and no slot of another inode is different.
   */
  ghost predicate Extends(d: Disk, ino: seq<Inode>, f: Disk, jno: seq<Inode>, i: nat) {
    && AllReadable(d, ino) && AllReadable(f, jno)
    && |jno| == |ino| && |f| == |d| && i < |ino|
    && (forall j :: 0 <= j < |ino| && j != i ==> jno[j] == ino[j] && Tables(f, jno)[j] == Tables(d, ino)[j])
    && jno[i].size == ino[i].size
    && (forall j :: 0 <= j < |ino| ==> Space(f, Tables(f, jno)[j]) == Space(d, Tables(d, ino)[j]))
    && forall s :: 0 <= s < SLOTS && Tables(d, ino)[i][s] != 0 ==> Tables(f, jno)[i][s] == Tables(d, ino)[i][s]
  }

  lemma ExtendsSelf(d: Disk, ino: seq<Inode>, i: nat)
    requires AllReadable(d, ino) && i < |ino|
    ensures Extends(d, ino, d, ino, i)
  {
  }

  lemma ExtendsTwice(d: Disk, ino: seq<Inode>, e: Disk, jno: seq<Inode>, f: Disk, kno: seq<Inode>, i: nat)
    requires Extends(d, ino, e, jno, i) && Extends(e, jno, f, kno, i)
    ensures Extends(d, ino, f, kno, i)
  {
    hide Tables, Space;
  }

  lemma AllocateExtends(sb: Super, d: Disk, ino: seq<Inode>, owner: map<nat, Slot>, i: nat, a: nat)
    requires Good(sb, d, ino, owner, {}) && i < |ino| && a < sb.size && !Marked(sb, d, a)
    ensures var e := WithMark(sb, d, a)[a := Zeroes()];
            && sb.datastart <= a && a !in owner
            && Good(sb, e, ino, owner, {a}) && Tables(e, ino) == Tables(d, ino)
            && Extends(d, ino, e, ino, i)
  {
    var e := WithMark(sb, d, a)[a := Zeroes()];
    AllocateStep(sb, d, Tables(d, ino), owner, a);
    hide WithMark, GoodTables, KeepsOwned;
    assert Owned(Tables(d, ino), owner) by { OwnedOf(sb, d, Tables(d, ino), owner, {}); }
    TablesKept(d, e, ino, owner);
    forall j | 0 <= j < |ino| ensures Space(e, Tables(e, ino)[j]) == Space(d, Tables(d, ino)[j]) {
      SpaceKept(d, e, Tables(d, ino), owner, j);
    }
  }

  lemma OwnedOf(sb: Super, d: Disk, t: seq<seq<nat>>, owner: map<nat, Slot>, pending: set<nat>)
    requires GoodTables(sb, d, t, owner, pending)
    ensures Owned(t, owner) && |d| == sb.size && sb.Valid(0)
    ensures forall a :: a in owner || a in pending ==> sb.datastart <= a < sb.size
  {
  }

  // A zeroed pending block goes into slot `s` of inode `i`.
  lemma TakeExtends(sb: Super, d: Disk, ino: seq<Inode>, e: Disk, jno: seq<Inode>, owner: map<nat, Slot>, i: nat,
                    s: nat, a: nat)
    requires Good(sb, d, ino, owner, {a}) && |e| == |d| && a < |d| && d[a] == Zeroes() && e[a] == Zeroes()
    requires i < |ino| && s < SLOTS && Tables(d, ino)[i][s] == 0
    requires |jno| == |ino| && jno[i].size == ino[i].size && forall j :: 0 <= j < |ino| && j != i ==> jno[j] == ino[j]
    requires KeepsData(d, e, owner) && forall b :: 0 <= b < sb.datastart ==> e[b] == d[b]
    requires AllReadable(e, jno) && Tables(e, jno) == WithEntry(Tables(d, ino), i, s, a)
    ensures Good(sb, e, jno, owner[a := Slot(i, s)], {})
    ensures Extends(d, ino, e, jno, i)
  {
    hide GoodTables, Owned, KeepsData, WithEntry, Space, Tables, Marked, Readable, Zeroes;
    var t := Tables(d, ino);
    OwnedOf(sb, d, t, owner, {a});
    SettlePending(sb, d, e, t, owner, i, s, a);
    forall j | 0 <= j < |ino| ensures Space(e, Tables(e, jno)[j]) == Space(d, t[j]) {
      SpaceAfterTake(d, e, t, owner, i, s, a, j);
    }
  }

  function Allocated(sb: Super, d: Disk, a: nat): (e: Disk)
    requires |d| == sb.size && sb.Valid(0) && a < sb.size && !Marked(sb, d, a)
    ensures |e| == |d|
  {
    WithMark(sb, d, a)[a := Zeroes()]
  }

  function WithAddr(ino: seq<Inode>, i: nat, s: nat, a: nat): (jno: seq<Inode>)
    requires i < |ino| && s < |ino[i].addrs|
    ensures |jno| == |ino| && forall k :: 0 <= k < |ino| ==> jno[k].size == ino[k].size
  {
    var addrs: seq<nat> := ino[i].addrs[s := a];
    ino[i := Inode(ino[i].size, addrs)]
  }

  // Allocate a block and put it in an address of the inode itself.
  lemma AddrStep(sb: Super, d: Disk, ino: seq<Inode>, owner: map<nat, Slot>, i: nat, s: nat, a: nat)
    requires Good(sb, d, ino, owner, {}) && i < |ino| && s <= INDIRECT && ino[i].addrs[s] == 0
    requires a < sb.size && !Marked(sb, d, a)
    ensures var e := Allocated(sb, d, a);
            var jno := WithAddr(ino, i, s, a);
            && Good(sb, e, jno, owner[a := Slot(i, s)], {})
            && Extends(d, ino, e, jno, i)
            && Tables(e, jno)[i][s] == a
            && forall r :: 0 <= r < SLOTS && r != s ==> Tables(e, jno)[i][r] == Tables(d, ino)[i][r]
  {
    var e := Allocated(sb, d, a);
    var jno := WithAddr(ino, i, s, a);
    AllocateExtends(sb, d, ino, owner, i, a);
    assert KeepsData(e, e, owner);
    assert Tables(d, ino)[i][s] == 0;
    hide GoodTables, WithMark, Marked, KeepsData, Extends;
    SetAddr(e, ino, i, s, a);
    TakeExtends(sb, e, ino, e, jno, owner, i, s, a);
    ExtendsTwice(d, ino, e, ino, e, jno, i);
  }

  // What allocating block `a` leaves in place.
  lemma AllocatedFacts(sb: Super, d: Disk, ino: seq<Inode>, owner: map<nat, Slot>, i: nat, a: nat)
    requires Good(sb, d, ino, owner, {}) && i < |ino| && a < sb.size && !Marked(sb, d, a)
    ensures |d| == sb.size && sb.Valid(0) && a < WORD
    ensures var e := Allocated(sb, d, a);
            && |e| == |d|
            && e[a] == Zeroes() && a < WORD && AllReadable(e, ino) && Tables(e, ino) == Tables(d, ino)
            && Good(sb, e, ino, owner, {a}) && Extends(d, ino, e, ino, i) && Owned(Tables(e, ino), owner)
            && forall n :: n in owner ==> sb.datastart <= n < sb.size && n != a && e[n] == d[n]
  {
    AllocateExtends(sb, d, ino, owner, i, a);
    OwnedOf(sb, d, Tables(d, ino), owner, {});
    MarkOne(sb, d, a);
    hide GoodTables, WithMark, Marked, Extends, Owned, Tables;
  }

  lemma EntryOf(d: Disk, ino: seq<Inode>, owner: map<nat, Slot>, i: nat, j: nat)
    requires AllReadable(d, ino) && Owned(Tables(d, ino), owner) && i < |ino| && j < NINDIRECT
    requires ino[i].addrs[INDIRECT] != 0
    ensures ino[i].addrs[INDIRECT] in owner && Tables(d, ino)[i][INDIRECT] == ino[i].addrs[INDIRECT]
    ensures Tables(d, ino)[i][INDIRECT + 1 + j] == Word(d[ino[i].addrs[INDIRECT]], j)
  {
    assert Tables(d, ino)[i] == Table(d, ino[i]);
    TableHead(d, ino[i]);
    hide Word, Owned;
    assert Table(d, ino[i])[INDIRECT + 1 + j] == Words(d[ino[i].addrs[INDIRECT]])[j];
    hide Table, Tables, Words;
    assert ino[i].addrs[INDIRECT] in owner by { HeldBy(Tables(d, ino), owner, i, INDIRECT); }
  }

  lemma HeldBy(t: seq<seq<nat>>, owner: map<nat, Slot>, i: nat, s: nat)
    requires Owned(t, owner) && i < |t| && s < |t[i]| && t[i][s] != 0
    ensures t[i][s] in owner && owner[t[i][s]] == Slot(i, s)
  {
  }

  // Allocate a block and put it in the indirect block.
  lemma EntryStep(sb: Super, d: Disk, ino: seq<Inode>, owner: map<nat, Slot>, i: nat, j: nat, a: nat)
    requires Good(sb, d, ino, owner, {}) && i < |ino| && j < NINDIRECT && ino[i].addrs[INDIRECT] != 0
    requires Word(d[ino[i].addrs[INDIRECT]], j) == 0
    requires a < sb.size && !Marked(sb, d, a)
    ensures a < WORD
    ensures var e := Allocated(sb, d, a);
            var n := ino[i].addrs[INDIRECT];
            var f := e[n := WithWord(e[n], j, a)];
            && e[n] == d[n]
            && Good(sb, f, ino, owner[a := Slot(i, INDIRECT + 1 + j)], {})
            && Extends(d, ino, f, ino, i)
            && Tables(f, ino)[i][INDIRECT + 1 + j] == a
            && forall r :: 0 <= r < SLOTS && r != INDIRECT + 1 + j ==> Tables(f, ino)[i][r] == Tables(d, ino)[i][r]
  {
    hide GoodTables, WithMark, Marked, KeepsData, Extends, Tables, Owned, Allocated, Word, WithWord;
    AllocatedFacts(sb, d, ino, owner, i, a);
    var e := Allocated(sb, d, a);
    EntryOf(e, ino, owner, i, j);
    var n := ino[i].addrs[INDIRECT];
    var f := e[n := WithWord(e[n], j, a)];
    SetWord(e, ino, owner, i, j, a);
    TakeExtends(sb, e, ino, f, ino, owner, i, INDIRECT + 1 + j, a);
    ExtendsTwice(d, ino, e, ino, f, ino, i);
  }

  // ---------- Freeing the blocks of one inode ----------

  // The rows `t` with the slots before `k` of row `i` empty, the indirect block excepted.
  function Cleared(t: seq<seq<nat>>, i: nat, k: nat): (u: seq<seq<nat>>)
    requires i < |t| && |t[i]| == SLOTS
    ensures |u| == |t| && |u[i]| == SLOTS
    ensures forall s :: 0 <= s < SLOTS ==> u[i][s] == if s < k && s != INDIRECT then 0 else t[i][s]
    ensures forall j :: 0 <= j < |t| && j != i ==> u[j] == t[j]
  {
    var row: seq<nat> := seq(SLOTS, s requires 0 <= s < SLOTS => if s < k && s != INDIRECT then 0 else t[i][s]);
    t[i := row]
  }

  function Emptied(t: seq<seq<nat>>, i: nat): (u: seq<seq<nat>>)
    requires i < |t|
    ensures |u| == |t| && |u[i]| == SLOTS && forall s :: 0 <= s < SLOTS ==> u[i][s] == 0
    ensures forall j :: 0 <= j < |t| && j != i ==> u[j] == t[j]
  {
    var row: seq<nat> := seq(SLOTS, s => 0);
    t[i := row]
  }

  ghost predicate SameData(sb: Super, d: Disk, e: Disk) {
    |d| == |e| && forall b :: sb.datastart <= b < |d| ==> e[b] == d[b]
  }

  // itrunc has freed what the slots before `k` held.
  ghost predicate Freeing(sb: Super, d: Disk, t: seq<seq<nat>>, e: Disk, owner: map<nat, Slot>, i: nat, k: nat)
    requires i < |t| && |t[i]| == SLOTS
  {
    GoodTables(sb, e, Cleared(t, i, k), owner, {}) && SameData(sb, d, e)
  }

  ghost predicate Freed(sb: Super, d: Disk, t: seq<seq<nat>>, e: Disk, owner: map<nat, Slot>, i: nat)
    requires i < |t|
  {
    GoodTables(sb, e, Emptied(t, i), owner, {}) && SameData(sb, d, e)
  }

  lemma FreeingBegins(sb: Super, d: Disk, t: seq<seq<nat>>, owner: map<nat, Slot>, i: nat)
    requires i < |t| && |t[i]| == SLOTS && GoodTables(sb, d, t, owner, {})
    ensures Freeing(sb, d, t, d, owner, i, 0)
  {
    assert Cleared(t, i, 0)[i] == t[i];
    assert Cleared(t, i, 0) == t;
  }

  lemma FreeKeepsData(sb: Super, d: Disk, e: Disk, a: nat)
    requires CanFree(sb, e, a) && SameData(sb, d, e)
    ensures SameData(sb, d, WithoutMark(sb, e, a))
  {
    UnmarkOne(sb, e, a);
    hide Marked, WithoutMark;
  }

  lemma ClearNext(t: seq<seq<nat>>, i: nat, k: nat)
    requires i < |t| && |t[i]| == SLOTS && k < SLOTS && k != INDIRECT
    ensures Cleared(t, i, k + 1) == if t[i][k] == 0 then Cleared(t, i, k) else WithEntry(Cleared(t, i, k), i, k, 0)
  {
    var u := if t[i][k] == 0 then Cleared(t, i, k) else WithEntry(Cleared(t, i, k), i, k, 0);
    assert Cleared(t, i, k + 1)[i] == u[i];
    assert Cleared(t, i, k + 1) == u;
  }

  lemma FreeNext(sb: Super, d: Disk, t: seq<seq<nat>>, e: Disk, owner: map<nat, Slot>, i: nat, k: nat)
    requires i < |t| && |t[i]| == SLOTS && k < SLOTS && k != INDIRECT && Freeing(sb, d, t, e, owner, i, k)
    ensures var a := t[i][k];
            if a == 0 then Freeing(sb, d, t, e, owner, i, k + 1)
            else CanFree(sb, e, a) && Freeing(sb, d, t, WithoutMark(sb, e, a), owner - {a}, i, k + 1)
  {
    var u, a := Cleared(t, i, k), t[i][k];
    ClearNext(t, i, k);
    if a != 0 {
      FreeStep(sb, e, u, owner, i, k);
      OwnedOf(sb, e, u, owner, {});
      hide GoodTables, Cleared, SameData;
      FreeKeepsData(sb, d, e, a);
    }
  }

  // The indirect block goes last; without one there are no entries.
  lemma FreeLast(sb: Super, d: Disk, t: seq<seq<nat>>, e: Disk, owner: map<nat, Slot>, i: nat, k: nat)
    requires i < |t| && |t[i]| == SLOTS && Freeing(sb, d, t, e, owner, i, k)
    requires k == SLOTS || (k == INDIRECT && forall s :: INDIRECT <= s < SLOTS ==> t[i][s] == 0)
    ensures var a := t[i][INDIRECT];
            if a == 0 then Freed(sb, d, t, e, owner, i)
            else CanFree(sb, e, a) && Freed(sb, d, t, WithoutMark(sb, e, a), owner - {a}, i)
  {
    var u, a := Cleared(t, i, k), t[i][INDIRECT];
    if a == 0 {
      assert u[i] == Emptied(t, i)[i];
      assert u == Emptied(t, i);
    } else {
      FreeStep(sb, e, u, owner, i, INDIRECT);
      OwnedOf(sb, e, u, owner, {});
      assert WithEntry(u, i, INDIRECT, 0)[i] == Emptied(t, i)[i];
      assert WithEntry(u, i, INDIRECT, 0) == Emptied(t, i);
      hide GoodTables, Cleared, SameData, Emptied;
      FreeKeepsData(sb, d, e, a);
    }
  }

  function NoAddrs(): (r: seq<nat>)
    ensures |r| == NDIRECT + 1 && forall s :: 0 <= s <= INDIRECT ==> r[s] == 0
  {
    seq(NDIRECT + 1, s => 0)
  }

  lemma EmptiedTables(sb: Super, d: Disk, e: Disk, ino: seq<Inode>, owner: map<nat, Slot>, i: nat)
    requires Good(sb, d, ino, owner, {}) && i < |ino| && SameData(sb, d, e)
    ensures AllReadable(e, ino[i := Inode(0, NoAddrs())])
    ensures Tables(e, ino[i := Inode(0, NoAddrs())]) == Emptied(Tables(d, ino), i)
  {
    var kno := ino[i := Inode(0, NoAddrs())];
    OwnedOf(sb, d, Tables(d, ino), owner, {});
    hide GoodTables;
    TablesKept(d, e, ino, owner);
    assert Table(e, kno[i]) == Emptied(Tables(d, ino), i)[i];
    forall j | 0 <= j < |ino| && j != i ensures Table(e, kno[j]) == Tables(d, ino)[j] {
      assert Tables(e, ino)[j] == Table(e, ino[j]);
    }
  }

  /**
   Truncation frees exactly the blocks of inode `i`: ownership and the free map are as
   before but for them, and the other files keep their blocks and bytes.
   */
  lemma TruncateEnds(sb: Super, d: Disk, e: Disk, ino: seq<Inode>, owner: map<nat, Slot>, kept: map<nat, Slot>, i: nat)
    requires Good(sb, d, ino, owner, {}) && i < |ino| && Freed(sb, d, Tables(d, ino), e, kept, i)
    ensures var kno := ino[i := Inode(0, NoAddrs())];
            && Good(sb, e, kno, kept, {})
            && forall j :: 0 <= j < |ino| && j != i ==>
                 Tables(e, kno)[j] == Tables(d, ino)[j] && Space(e, Tables(e, kno)[j]) == Space(d, Tables(d, ino)[j])
    ensures FreesExactly(sb, d, e, owner, kept, i)
  {
    hide GoodTables, Owned, Tables, Marked, Space, SameData, Emptied, FreesExactly, AllReadable;
    var t := Tables(d, ino);
    EmptiedTables(sb, d, e, ino, owner, i);
    OwnedOf(sb, d, t, owner, {});
    FreedData(sb, d, e, t, owner, kept, i);
    ExactlyFreed(sb, d, e, t, owner, kept, i);
    forall j | 0 <= j < |ino| && j != i
      ensures Space(e, Emptied(t, i)[j]) == Space(d, t[j])
    {
      SpaceKept(d, e, t, owner, j);
    }
  }

  lemma FreedData(sb: Super, d: Disk, e: Disk, t: seq<seq<nat>>, owner: map<nat, Slot>, kept: map<nat, Slot>, i: nat)
    requires GoodTables(sb, d, t, owner, {}) && i < |t| && Freed(sb, d, t, e, kept, i)
    ensures GoodTables(sb, e, Emptied(t, i), kept, {}) && KeepsOwned(d, e, owner.Keys)
  {
    OwnedOf(sb, d, t, owner, {});
    hide GoodTables, Owned, Emptied;
  }

  lemma ExactlyFreed(sb: Super, d: Disk, e: Disk, t: seq<seq<nat>>, owner: map<nat, Slot>, kept: map<nat, Slot>, i: nat)
    requires GoodTables(sb, d, t, owner, {}) && i < |t| && GoodTables(sb, e, Emptied(t, i), kept, {})
    ensures FreesExactly(sb, d, e, owner, kept, i)
  {
    KeptOwners(t, Emptied(t, i), owner, kept, i);
    assert owner.Keys + {} == owner.Keys && kept.Keys + {} == kept.Keys;
    hide Owned, Marked, Emptied;
  }

  ghost predicate FreesExactly(sb: Super, d: Disk, e: Disk, owner: map<nat, Slot>, kept: map<nat, Slot>, i: nat) {
    && sb.Valid(0) && |d| == |e| == sb.size
    && (forall a :: a in kept <==> a in owner && owner[a].i != i)
    && (forall a :: a in kept ==> kept[a] == owner[a])
    && (forall a :: 0 <= a < sb.size ==> (Marked(sb, e, a) <==> Marked(sb, d, a) && !(a in owner && owner[a].i == i)))
  }

  lemma KeptOwners(t: seq<seq<nat>>, u: seq<seq<nat>>, owner: map<nat, Slot>, kept: map<nat, Slot>, i: nat)
    requires Owned(t, owner) && Owned(u, kept) && i < |t| && |u| == |t|
    requires forall j :: 0 <= j < |t| && j != i ==> u[j] == t[j]
    requires forall s :: 0 <= s < |u[i]| ==> u[i][s] == 0
    ensures forall a :: a in kept <==> a in owner && owner[a].i != i
    ensures forall a :: a in kept ==> kept[a] == owner[a]
  {
    forall a | a in owner && owner[a].i != i ensures a in kept {
      assert u[owner[a].i][owner[a].s] == a;
    }
    forall a | a in kept ensures a in owner && owner[a] == kept[a] && owner[a].i != i {
      assert a != 0 && u[kept[a].i][kept[a].s] == a;
    }
  }
}
