/**
 The image that labo2/mkfs/mkfs.c builds: files made of appended bytes, in blocks taken one
 after the other, ready for the kernel's file system.
 */
module Mkfs {
  import opened Blocks
  import opened Inodes
  import opened Writing
  import opened Holes
  import opened FileSystem

  // Blocks from the data area up to `free` are in use, the rest and the free map are zero.
  ghost predicate Image(sb: Super, d: Disk, ino: seq<Inode>, owner: map<nat, Slot>, free: nat) {
    && sb.Valid(|ino|) && |d| == sb.size && sb.datastart <= free <= sb.size
    && AllReadable(d, ino) && Owned(Tables(d, ino), owner)
    && (forall a :: a in owner <==> sb.datastart <= a < free)
    && ZeroFrom(d, free) && ZeroMap(sb, d)
  }

  ghost predicate ZeroFrom(d: Disk, free: nat) {
    forall b :: free <= b < |d| ==> d[b] == Zeroes()
  }

  ghost predicate ZeroMap(sb: Super, d: Disk) {
    forall b :: sb.bmapstart <= b < sb.datastart && b < |d| ==> d[b] == Zeroes()
  }

  // A file has the blocks below its size and no others.
  predicate Exact(t: seq<nat>, size: nat)
    requires |t| == SLOTS && size <= MAXBYTES
  {
    && (forall bn :: 0 <= bn < MAXFILE ==> (t[SlotOf(bn)] != 0 <==> bn * BSIZE < size))
    && (t[INDIRECT] != 0 <==> NDIRECT * BSIZE < size)
  }

  // The blocks that a file of `size` bytes takes, the indirect block included.
  function Needs(size: nat): nat {
    (size + BSIZE - 1) / BSIZE + if NDIRECT * BSIZE < size then 1 else 0
  }

  ghost predicate SameRows(t: seq<seq<nat>>, u: seq<seq<nat>>, i: nat) {
    |t| == |u| && forall j :: 0 <= j < |t| && j != i ==> u[j] == t[j]
  }

  // freeblock++ into an address of inode `i`.
  lemma TakeAddr(sb: Super, d: Disk, ino: seq<Inode>, owner: map<nat, Slot>, free: nat, i: nat, s: nat)
    requires Image(sb, d, ino, owner, free) && free < sb.size && i < |ino| && s <= INDIRECT && ino[i].addrs[s] == 0
    ensures var jno := WithAddr(ino, i, s, free);
            && Image(sb, d, jno, owner[free := Slot(i, s)], free + 1)
            && Extends(d, ino, d, jno, i)
            && Tables(d, jno) == WithEntry(Tables(d, ino), i, s, free)
  {
    hide Space, Owned, Table, Tables, WithEntry, KeepsData, ZeroMap;
    var jno := WithAddr(ino, i, s, free);
    var t := Tables(d, ino);
    SameAddr(ino, i, s, free);
    assert d[free] == Zeroes();
    SetAddr(d, ino, i, s, free);
    TableHas(d, ino, i, s);
    TakeSlot(t, owner, i, s, free);
    SameKeepsData(d, owner);
    hide Zeroes, Image, ZeroFrom;
    forall j | 0 <= j < |ino| ensures Space(d, Tables(d, jno)[j]) == Space(d, t[j]) {
      SpaceAfterTake(d, d, t, owner, i, s, free, j);
    }
    TakenImage(sb, d, ino, owner, free, jno, i, s);
    TakenExtends(d, ino, jno, i, s, free);
  }

  lemma SameAddr(ino: seq<Inode>, i: nat, s: nat, a: nat)
    requires i < |ino| && s < |ino[i].addrs|
    ensures WithAddr(ino, i, s, a) == ino[i := ino[i].(addrs := ino[i].addrs[s := a])]
  {
  }

  lemma TakenImage(sb: Super, d: Disk, ino: seq<Inode>, owner: map<nat, Slot>, free: nat, jno: seq<Inode>, i: nat,
                   s: nat)
    requires Image(sb, d, ino, owner, free) && free < sb.size && |jno| == |ino| && AllReadable(d, jno)
    requires Owned(Tables(d, jno), owner[free := Slot(i, s)])
    ensures Image(sb, d, jno, owner[free := Slot(i, s)], free + 1)
  {
    hide Owned, Tables, Readable, ZeroMap, Super.Valid;
  }

  lemma TakenExtends(d: Disk, ino: seq<Inode>, jno: seq<Inode>, i: nat, s: nat, a: nat)
    requires AllReadable(d, ino) && AllReadable(d, jno) && |jno| == |ino| && i < |ino| && s < SLOTS
    requires jno[i].size == ino[i].size && forall j :: 0 <= j < |ino| && j != i ==> jno[j] == ino[j]
    requires Tables(d, ino)[i][s] == 0 && Tables(d, jno) == WithEntry(Tables(d, ino), i, s, a)
    requires forall j :: 0 <= j < |ino| ==> Space(d, Tables(d, jno)[j]) == Space(d, Tables(d, ino)[j])
    ensures Extends(d, ino, d, jno, i)
  {
    hide Space, Tables, Readable;
  }

  lemma TableHas(d: Disk, ino: seq<Inode>, i: nat, s: nat)
    requires AllReadable(d, ino) && i < |ino| && s <= INDIRECT
    ensures Tables(d, ino)[i][s] == ino[i].addrs[s]
  {
  }

  // freeblock++ into the indirect block of inode `i`.
  lemma TakeEntry(sb: Super, d: Disk, ino: seq<Inode>, owner: map<nat, Slot>, free: nat, i: nat, j: nat)
    requires Image(sb, d, ino, owner, free) && free < sb.size && i < |ino| && j < NINDIRECT
    requires ino[i].addrs[INDIRECT] != 0
    requires Tables(d, ino)[i][INDIRECT + 1 + j] == 0
    ensures ino[i].addrs[INDIRECT] < |d| && free < WORD
    ensures var n := ino[i].addrs[INDIRECT];
            var e := d[n := WithWord(d[n], j, free)];
            && Image(sb, e, ino, owner[free := Slot(i, INDIRECT + 1 + j)], free + 1)
            && Extends(d, ino, e, ino, i)
            && Tables(e, ino) == WithEntry(Tables(d, ino), i, INDIRECT + 1 + j, free)
  {
    hide Space, Owned, Table, Zeroes, WithWord, Tables, WithEntry, KeepsData;
    var n := ino[i].addrs[INDIRECT];
    var e := d[n := WithWord(d[n], j, free)];
    var t := Tables(d, ino);
    SetWord(d, ino, owner, i, j, free);
    TakeSlot(t, owner, i, INDIRECT + 1 + j, free);
    forall k | 0 <= k < |ino| ensures Space(e, Tables(e, ino)[k]) == Space(d, t[k]) {
      SpaceAfterTake(d, e, t, owner, i, INDIRECT + 1 + j, free, k);
    }
  }

  // Bytes copied into a block of inode `i`.
  lemma CopyInto(sb: Super, d: Disk, ino: seq<Inode>, owner: map<nat, Slot>, free: nat, i: nat, o: nat, y: seq<Byte>)
    requires Image(sb, d, ino, owner, free) && i < |ino| && BlockNo(o) < MAXFILE && InBlock(o) + |y| <= BSIZE
    requires Tables(d, ino)[i][SlotOf(BlockNo(o))] != 0
    ensures var a := Tables(d, ino)[i][SlotOf(BlockNo(o))];
            && a < |d|
            && var e := d[a := Patched(d[a], InBlock(o), y)];
            Image(sb, e, ino, owner, free) && Tables(e, ino) == Tables(d, ino) && Wrote(d, ino, e, ino, i, o, y)
  {
    hide Space, Owned, Table, Tables, Zeroes, Patched, BlockNo, InBlock, Wrote;
    var a := Tables(d, ino)[i][SlotOf(BlockNo(o))];
    HeldBy(Tables(d, ino), owner, i, SlotOf(BlockNo(o)));
    OffsetParts(o);
    WroteAfterCopy(d, ino, owner, i, BlockNo(o), InBlock(o), y);
    DataBlock(d, ino, owner, i, BlockNo(o), Patched(d[a], InBlock(o), y));
  }

  // What one pass does to the row of the file.
  lemma ExactNext(t: seq<nat>, u: seq<nat>, o: nat, m: nat)
    requires |t| == |u| == SLOTS && o + m <= MAXBYTES && o < MAXBYTES && Exact(t, o)
    requires 0 < m && InBlock(o) + m <= BSIZE
    requires u[SlotOf(BlockNo(o))] != 0 && (BlockNo(o) >= NDIRECT ==> u[INDIRECT] != 0)
    requires forall s :: 0 <= s < SLOTS && s != SlotOf(BlockNo(o)) && (s != INDIRECT || BlockNo(o) < NDIRECT) ==>
      u[s] == t[s]
    ensures Exact(u, o + m)
    ensures Needs(o + m) == Needs(o) + (if t[SlotOf(BlockNo(o))] == 0 then 1 else 0)
                                     + (if BlockNo(o) >= NDIRECT && t[INDIRECT] == 0 then 1 else 0)
  {
    var bn := BlockNo(o);
    assert bn * BSIZE <= o < bn * BSIZE + BSIZE;
    assert t[SlotOf(bn)] == 0 <==> bn * BSIZE == o;
    forall k | 0 <= k < MAXFILE ensures u[SlotOf(k)] != 0 <==> k * BSIZE < o + m {
      if k < bn {
        assert k * BSIZE < o;
      } else if k > bn {
        assert k * BSIZE >= bn * BSIZE + BSIZE;
      }
      assert k != bn ==> SlotOf(k) != SlotOf(bn);
    }
  }

  // ---------- Files as appended bytes ----------

  function Padded(f: seq<Byte>): (s: seq<Byte>)
    requires |f| <= MAXBYTES
    ensures |s| == MAXBYTES
  {
    f + seq(MAXBYTES - |f|, i => 0)
  }

  // The file with row `t` and size `size` is `f`, with zeroes behind.
  ghost predicate FileIs(d: Disk, t: seq<nat>, size: nat, f: seq<Byte>) {
    |t| == SLOTS && size == |f| <= MAXBYTES && Exact(t, size) && Space(d, t) == Padded(f)
  }

  ghost predicate FilesAre(d: Disk, ino: seq<Inode>, files: seq<seq<Byte>>) {
    && AllReadable(d, ino) && |files| == |ino|
    && forall i :: 0 <= i < |ino| ==> FileIs(d, Tables(d, ino)[i], ino[i].size, files[i])
  }

  // The blocks that all files together take.
  function Total(files: seq<seq<Byte>>): nat {
    if files == [] then 0 else Needs(|files[0]|) + Total(files[1..])
  }

  lemma {:induction false} TotalSet(files: seq<seq<Byte>>, i: nat, f: seq<Byte>)
    requires i < |files|
    ensures Total(files[i := f]) == Total(files) - Needs(|files[i]|) + Needs(|f|)
  {
    if i == 0 {
      assert files[0 := f][1..] == files[1..];
    } else {
      TotalSet(files[1..], i - 1, f);
      assert files[i := f][1..] == files[1..][i - 1 := f];
    }
  }

  lemma NeedsMore(a: nat, b: nat)
    requires a <= b
    ensures Needs(a) <= Needs(b)
  {
  }

  lemma PaddedAppend(f: seq<Byte>, x: seq<Byte>)
    requires |f| + |x| <= MAXBYTES
    ensures Patched(Padded(f), |f|, x) == Padded(f + x)
  {
  }

  // Where iappend is once `k` bytes are in place.
  ghost predicate Appending(sb: Super, d: Disk, ino: seq<Inode>, free: nat, e: Disk, jno: seq<Inode>,
                            owner: map<nat, Slot>, free': nat, i: nat, off: nat, src: seq<Byte>, k: nat)
    requires k <= |src|
  {
    && Image(sb, e, jno, owner, free')
    && Wrote(d, ino, e, jno, i, off, Piece(src, 0, k))
    && SameRows(Tables(d, ino), Tables(e, jno), i)
    && Exact(Tables(e, jno)[i], off + k)
    && free' == free + Needs(off + k) - Needs(off)
  }

  lemma AppendBegins(sb: Super, d: Disk, ino: seq<Inode>, owner: map<nat, Slot>, free: nat, i: nat, off: nat,
                     src: seq<Byte>)
    requires Image(sb, d, ino, owner, free) && i < |ino| && off <= MAXBYTES && Exact(Tables(d, ino)[i], off)
    ensures Appending(sb, d, ino, free, d, ino, owner, free, i, off, src, 0)
  {
    hide Image, Tables, Exact, Space;
    assert AllReadable(d, ino) by { ImageReadable(sb, d, ino, owner, free); }
    assert Piece(src, 0, 0) == [];
    WroteNothing(d, ino, i, off);
  }

  lemma ImageReadable(sb: Super, d: Disk, ino: seq<Inode>, owner: map<nat, Slot>, free: nat)
    requires Image(sb, d, ino, owner, free)
    ensures AllReadable(d, ino) && |d| == sb.size && 0 < free <= sb.size < WORD
  {
  }

  /**
   What finding the block of offset `o` does: the block and the indirect block are there,
   in slots that were empty or held them already.
   */
  ghost predicate Locates(sb: Super, d: Disk, ino: seq<Inode>, free: nat, e: Disk, jno: seq<Inode>,
                          owner: map<nat, Slot>, free': nat, i: nat, bn: nat)
  {
    && bn < MAXFILE && AllReadable(d, ino) && AllReadable(e, jno)
    && Image(sb, e, jno, owner, free') && Extends(d, ino, e, jno, i)
    && SameRows(Tables(d, ino), Tables(e, jno), i)
    && var t, u := Tables(d, ino)[i], Tables(e, jno)[i];
    && u[SlotOf(bn)] != 0 && (bn >= NDIRECT ==> u[INDIRECT] != 0)
    && (forall s :: 0 <= s < SLOTS && s != SlotOf(bn) && (s != INDIRECT || bn < NDIRECT) ==> u[s] == t[s])
    && free' == free + New(t, bn)
  }

  // How many blocks are missing for block `bn`.
  function New(t: seq<nat>, bn: nat): nat
    requires |t| == SLOTS && bn < MAXFILE
  {
    (if t[SlotOf(bn)] == 0 then 1 else 0) + if bn >= NDIRECT && t[INDIRECT] == 0 then 1 else 0
  }

  lemma AppendGoesOn(sb: Super, d: Disk, ino: seq<Inode>, free: nat, e: Disk, jno: seq<Inode>, owner: map<nat, Slot>,
                     free': nat, f: Disk, kno: seq<Inode>, kept: map<nat, Slot>, free'': nat,
                     i: nat, off: nat, src: seq<Byte>, k: nat, m: nat)
    requires k < |src| && off + |src| <= MAXBYTES && m == Chunk(|src| - k, off + k)
    requires Appending(sb, d, ino, free, e, jno, owner, free', i, off, src, k)
    requires Locates(sb, e, jno, free', f, kno, kept, free'', i, BlockNo(off + k))
    ensures k + m <= |src|
    ensures var a := Tables(f, kno)[i][SlotOf(BlockNo(off + k))];
            && a < |f| && InBlock(off + k) + m <= BSIZE
            && Appending(sb, d, ino, free, f[a := Patched(f[a], InBlock(off + k), Piece(src, k, m))], kno, kept,
              free'', i, off, src, k + m)
  {
    hide Image, Tables, Exact, Space, Owned, Wrote, Patched, BlockNo, InBlock, SlotOf, Needs, Extends, Piece,
         AllReadable, Chunk;
    WroteReadable(d, ino, e, jno, i, off, Piece(src, 0, k));
    var o, t, u := off + k, Tables(e, jno)[i], Tables(f, kno)[i];
    var a := u[SlotOf(BlockNo(o))];
    ChunkFits(|src| - k, o);
    OffsetParts(o);
    CopyInto(sb, f, kno, kept, free'', i, o, Piece(src, k, m));
    var g := f[a := Patched(f[a], InBlock(o), Piece(src, k, m))];
    ImageReadable(sb, g, kno, kept, free'');
    ExtendsThenWrote(e, jno, f, kno, g, kno, i, o, Piece(src, k, m));
    PieceNext(src, k, m);
    WroteTwice(d, ino, e, jno, g, kno, i, off, Piece(src, 0, k), Piece(src, k, m));
    ExactNext(t, u, o, m);
  }

  // iappend is done: the size is written last.
  lemma AppendEnds(sb: Super, d: Disk, ino: seq<Inode>, owner: map<nat, Slot>, free: nat, files: seq<seq<Byte>>,
                   e: Disk, jno: seq<Inode>, owner': map<nat, Slot>, free': nat, i: nat, src: seq<Byte>)
    requires FilesAre(d, ino, files) && i < |ino| && |files[i]| + |src| <= MAXBYTES
    requires Appending(sb, d, ino, free, e, jno, owner', free', i, |files[i]|, src, |src|)
    ensures var kno := jno[i := Inode(|files[i]| + |src|, jno[i].addrs)];
            && Image(sb, e, kno, owner', free') && FilesAre(e, kno, files[i := files[i] + src])
    ensures free' == free + Needs(|files[i] + src|) - Needs(|files[i]|)
  {
    hide Space, Owned, Exact, Patched, Padded, Needs, Piece, Tables, Image, FileIs, AllReadable;
    var off := |files[i]|;
    PieceAll(src);
    var size := off + |src|;
    assert FileIs(d, Tables(d, ino)[i], ino[i].size, files[i]);
    WroteReadable(d, ino, e, jno, i, off, src);
    ImageResized(sb, e, jno, owner', free', i, size);
    FileGrew(d, Tables(d, ino)[i], ino[i].size, files[i], e, Tables(e, jno)[i], src);
    var kno := jno[i := Inode(size, jno[i].addrs)];
    forall j | 0 <= j < |ino| && j != i ensures FileIs(e, Tables(e, kno)[j], kno[j].size, files[j]) {
      assert FileIs(d, Tables(d, ino)[j], ino[j].size, files[j]);
      FileStays(d, e, Tables(d, ino)[j], ino[j].size, files[j]);
    }
  }

  lemma ImageResized(sb: Super, d: Disk, ino: seq<Inode>, owner: map<nat, Slot>, free: nat, i: nat, size: nat)
    requires Image(sb, d, ino, owner, free) && i < |ino|
    ensures var kno := ino[i := Inode(size, ino[i].addrs)];
            && AllReadable(d, kno) && Image(sb, d, kno, owner, free) && Tables(d, kno) == Tables(d, ino)
  {
    assert ino[i := Inode(size, ino[i].addrs)] == ino[i := ino[i].(size := size)];
    Resized(d, ino, i, size);
    hide Tables, Owned, ZeroFrom, ZeroMap;
  }

  lemma FileGrew(d: Disk, t: seq<nat>, size: nat, f: seq<Byte>, e: Disk, u: seq<nat>, x: seq<Byte>)
    requires FileIs(d, t, size, f) && |u| == SLOTS && |f| + |x| <= MAXBYTES
    requires Space(e, u) == Patched(Space(d, t), |f|, x) && Exact(u, |f| + |x|)
    ensures size == |f| && FileIs(e, u, size + |x|, f + x)
  {
    hide Space, Exact, Padded, Patched;
    PaddedAppend(f, x);
  }

  lemma FileStays(d: Disk, e: Disk, t: seq<nat>, size: nat, f: seq<Byte>)
    requires FileIs(d, t, size, f) && Space(e, t) == Space(d, t)
    ensures FileIs(e, t, size, f)
  {
    hide Space, Exact, Padded;
  }

  lemma PieceAll(src: seq<Byte>)
    ensures Piece(src, 0, |src|) == src
  {
  }

  // ---------- The free map ----------

  // buf, after the loop of balloc has set the bits before `n`.
  ghost predicate BitsTo(b: Block, n: nat) {
    forall j :: 0 <= j < BPB ==> (BlockBit(b, j) <==> j < n)
  }

  lemma {:induction false} NoBits(j: nat)
    ensures !HasBit(0, j)
  {
    if j > 0 {
      NoBits(j - 1);
    }
  }

  lemma NoBitsAtAll()
    ensures BitsTo(Zeroes(), 0)
  {
    forall j | 0 <= j < BPB ensures !BlockBit(Zeroes(), j) {
      NoBits(j % 8);
    }
  }

  // With the free map in place the image is a file system.
  lemma MapWritten(sb: Super, d: Disk, ino: seq<Inode>, owner: map<nat, Slot>, free: nat, b: Block)
    requires Image(sb, d, ino, owner, free) && free < BPB && BitsTo(b, free)
    ensures sb.bmapstart < |d|
    ensures var e := d[sb.bmapstart := b];
            Good(sb, e, ino, owner, {}) && Tables(e, ino) == Tables(d, ino)
            && forall i :: 0 <= i < |ino| ==> Space(e, Tables(d, ino)[i]) == Space(d, Tables(d, ino)[i])
  {
    hide Space, Owned, Zeroes, BlockBit, Tables, Marked, BitsTo, ZeroMap, ZeroFrom;
    var e := d[sb.bmapstart := b];
    var t := Tables(d, ino);
    TablesKept(d, e, ino, owner);
    forall i | 0 <= i < |ino| ensures Space(e, t[i]) == Space(d, t[i]) {
      SpaceKept(d, e, t, owner, i);
    }
    assert owner.Keys + {} == owner.Keys;
    MapMatchesImage(sb, d, owner, free, b);
  }

  lemma MapMatchesImage(sb: Super, d: Disk, owner: map<nat, Slot>, free: nat, b: Block)
    requires sb.Valid(0) && |d| == sb.size && free < BPB && BitsTo(b, free) && ZeroMap(sb, d)
    requires sb.datastart <= free <= sb.size
    requires forall a :: a in owner <==> sb.datastart <= a < free
    ensures sb.bmapstart < |d| && MapMatches(sb, d[sb.bmapstart := b], owner.Keys)
  {
    hide Marked, BitsTo, ZeroMap;
    var e := d[sb.bmapstart := b];
    forall a | 0 <= a < sb.size ensures Marked(sb, e, a) <==> a < sb.datastart || a in owner.Keys {
      MapBit(sb, d, a, free, b);
      assert a in owner.Keys <==> a in owner;
      assert a in owner <==> sb.datastart <= a < free;
    }
  }

  lemma MapBit(sb: Super, d: Disk, a: nat, free: nat, b: Block)
    requires sb.Valid(0) && |d| == sb.size && a < sb.size && free < BPB && BitsTo(b, free) && ZeroMap(sb, d)
    ensures sb.BBlock(a) < sb.size && sb.bmapstart < |d|
    ensures Marked(sb, d[sb.bmapstart := b], a) <==> a < free
  {
    hide BlockBit;
    NoBitsAtAll();
    if a < BPB {
      assert a % BPB == a;
    } else {
      assert sb.bmapstart < sb.BBlock(a) < sb.datastart;
      assert d[sb.BBlock(a)] == Zeroes();
    }
  }

  // ---------- The size of the root directory ----------

  // off = ((off / BSIZE) + 1) * BSIZE
  function RoundedUp(size: nat): nat {
    (size / BSIZE + 1) * BSIZE
  }

  /**
   Rounding leaves the root directory without holes exactly when its size was not a
   multiple of the block size.
   */
  lemma RoundedHoles(t: seq<nat>, size: nat)
    requires |t| == SLOTS && size < MAXBYTES && Exact(t, size)
    ensures size < RoundedUp(size) <= MAXBYTES
    ensures NoHoles(t, RoundedUp(size)) <==> !Aligned(size)
  {
    var bn := size / BSIZE;
    assert bn * BSIZE <= size < bn * BSIZE + BSIZE;
    assert t[SlotOf(bn)] != 0 <==> bn * BSIZE < size;
    forall k | 0 <= k < MAXFILE && k * BSIZE < RoundedUp(size) && k != bn ensures t[SlotOf(k)] != 0 {
      assert k * BSIZE < size;
    }
  }

  lemma ExactNoHoles(t: seq<nat>, size: nat)
    requires |t| == SLOTS && size <= MAXBYTES && Exact(t, size)
    ensures NoHoles(t, size)
  {
  }

  // The file `f` with zeroes up to `size`.
  function ZeroTo(f: seq<Byte>, size: nat): (g: seq<Byte>)
    requires |f| <= size
    ensures |g| == size
  {
    f + seq(size - |f|, i => 0)
  }

  lemma PaddedTo(f: seq<Byte>, size: nat)
    requires |f| <= size <= MAXBYTES
    ensures Padded(f)[..size] == ZeroTo(f, size)
  {
  }

  /**
   A finished image: a well-formed file system whose files are the appended bytes, without
   holes; the root directory is padded with zeroes, and may have a hole.
   */
  ghost predicate Finished(sb: Super, d: Disk, ino: seq<Inode>, owner: map<nat, Slot>, files: seq<seq<Byte>>,
                           root: nat)
  {
    && sb.Valid(|ino|) && Good(sb, d, ino, owner, {}) && |files| == |ino| && root < |ino|
    && (forall i :: 0 <= i < |ino| ==> ino[i].size <= MAXBYTES)
    && (forall i :: 0 <= i < |ino| && i != root ==>
      HasFile(d, ino[i], files[i], |files[i]|) && NoHoles(Tables(d, ino)[i], ino[i].size))
    && HasFile(d, ino[root], files[root], RoundedUp(|files[root]|))
    && (NoHoles(Tables(d, ino)[root], ino[root].size) <==> !Aligned(|files[root]|))
  }

  // The file has `size` bytes: `f` and then zeroes.
  ghost predicate HasFile(d: Disk, ip: Inode, f: seq<Byte>, size: nat) {
    Readable(d, ip) && |f| <= ip.size == size <= MAXBYTES && Contents(d, ip) == ZeroTo(f, size)
  }

  lemma HasFileOf(d: Disk, ip: Inode, t: seq<nat>, f: seq<Byte>, size: nat)
    requires Readable(d, ip) && t == Table(d, ip) && |f| <= ip.size == size <= MAXBYTES && Space(d, t) == Padded(f)
    ensures HasFile(d, ip, f, size)
  {
    hide Space, Table;
    PaddedTo(f, size);
  }

  lemma Finishes(sb: Super, d: Disk, ino: seq<Inode>, owner: map<nat, Slot>, free: nat, files: seq<seq<Byte>>,
                 root: nat, b: Block)
    requires Image(sb, d, ino, owner, free) && FilesAre(d, ino, files) && free < BPB && BitsTo(b, free)
    requires root < |ino| && |files[root]| < MAXBYTES
    ensures sb.bmapstart < |d| && ino[root].size == |files[root]|
    ensures Finished(sb, d[sb.bmapstart := b], ino[root := Inode(RoundedUp(ino[root].size), ino[root].addrs)], owner,
            files, root)
  {
    hide Space, Tables, Exact, NoHoles, Padded, BitsTo, Good, RoundedUp, Owned, HasFile, AllReadable, FileIs, Aligned;
    var size := |files[root]|;
    FileShape(d, ino, files, root);
    var kno := ino[root := Inode(RoundedUp(size), ino[root].addrs)];
    ImageResized(sb, d, ino, owner, free, root, RoundedUp(size));
    MapWritten(sb, d, kno, owner, free, b);
    var e := d[sb.bmapstart := b];
    GoodFacts(sb, e, kno, owner);
    RoundedHoles(Tables(d, ino)[root], size);
    forall i | 0 <= i < |ino|
      ensures HasFile(e, kno[i], files[i], if i == root then RoundedUp(size) else |files[i]|) && kno[i].size <= MAXBYTES
      ensures i != root ==> NoHoles(Tables(e, kno)[i], kno[i].size)
    {
      FileShape(d, ino, files, i);
      assert FileIs(d, Tables(d, ino)[i], ino[i].size, files[i]);
      FileSpace(d, Tables(d, ino)[i], ino[i].size, files[i]);
      TableOf(e, kno, i);
      ReadableAt(e, kno, i);
      HasFileOf(e, kno[i], Tables(e, kno)[i], files[i], if i == root then RoundedUp(size) else |files[i]|);
      ExactNoHoles(Tables(d, ino)[i], |files[i]|);
    }
  }

  lemma ReadableAt(d: Disk, ino: seq<Inode>, i: nat)
    requires AllReadable(d, ino) && i < |ino|
    ensures Readable(d, ino[i])
  {
  }

  lemma FileSpace(d: Disk, t: seq<nat>, size: nat, f: seq<Byte>)
    requires FileIs(d, t, size, f)
    ensures |t| == SLOTS && size == |f| <= MAXBYTES && Space(d, t) == Padded(f)
  {
  }

  // ---------- A blank image ----------

  function Blank(size: nat): (d: Disk)
    ensures |d| == size && forall b :: 0 <= b < size ==> d[b] == Zeroes()
  {
    seq(size, b => Zeroes())
  }

  function Unused(n: nat): (ino: seq<Inode>)
    ensures |ino| == n && forall i :: 0 <= i < n ==> ino[i] == Inode(0, NoAddrs())
  {
    seq(n, i => Inode(0, NoAddrs()))
  }

  function NoFiles(n: nat): (files: seq<seq<Byte>>)
    ensures |files| == n && forall i :: 0 <= i < n ==> files[i] == []
  {
    seq(n, i => [])
  }

  lemma {:induction false} NoTotal(files: seq<seq<Byte>>)
    requires forall i :: 0 <= i < |files| ==> files[i] == []
    ensures Total(files) == 0
  {
    if files != [] {
      NoTotal(files[1..]);
    }
  }

  lemma NoTable(d: Disk)
    requires |d| > 0
    ensures Readable(d, Inode(0, NoAddrs()))
    ensures forall s :: 0 <= s < SLOTS ==> Table(d, Inode(0, NoAddrs()))[s] == 0
  {
  }

  lemma NoFile(d: Disk)
    requires |d| > 0
    ensures var t := Table(d, Inode(0, NoAddrs())); FileIs(d, t, 0, [])
  {
    NoTable(d);
    var t := Table(d, Inode(0, NoAddrs()));
    hide Table;
    assert Exact(t, 0);
    assert forall k :: 0 <= k < MAXBYTES ==> ByteAt(d, t, k) == 0;
  }

  lemma BlankImage(sb: Super, n: nat)
    requires sb.Valid(n)
    ensures Image(sb, Blank(sb.size), Unused(n), map[], sb.datastart) && FilesAre(Blank(sb.size), Unused(n), NoFiles(n))
    ensures Total(NoFiles(n)) == 0
  {
    NoTotal(NoFiles(n));
    var d, ino := Blank(sb.size), Unused(n);
    NoTable(d);
    NoFile(d);
    hide Table, FileIs, Blank, Unused, NoFiles, NoAddrs, Zeroes, Total;
    assert AllReadable(d, ino) by { hide Readable; }
  }

  // ialloc clears an inode that is clear.
  lemma UnusedInode(d: Disk, ino: seq<Inode>, files: seq<seq<Byte>>, i: nat)
    requires FilesAre(d, ino, files) && i < |ino| && files[i] == []
    ensures ino[i := Inode(0, NoAddrs())] == ino
  {
    var t := Tables(d, ino)[i];
    assert FileIs(d, t, ino[i].size, []);
    forall s | 0 <= s <= INDIRECT ensures ino[i].addrs[s] == 0 {
      TableHas(d, ino, i, s);
      assert s < INDIRECT ==> SlotOf(s) == s;
    }
    assert ino[i].addrs == NoAddrs();
  }

  lemma FileShape(d: Disk, ino: seq<Inode>, files: seq<seq<Byte>>, i: nat)
    requires FilesAre(d, ino, files) && i < |ino|
    ensures AllReadable(d, ino) && |files| == |ino| && ino[i].size == |files[i]| <= MAXBYTES
    ensures Exact(Tables(d, ino)[i], ino[i].size)
  {
    assert FileIs(d, Tables(d, ino)[i], ino[i].size, files[i]);
    hide Space, Exact, Tables;
  }

  // ---------- Finding the block of an offset ----------

  lemma NeedsNext(t: seq<nat>, o: nat, m: nat)
    requires |t| == SLOTS && o + m <= MAXBYTES && o < MAXBYTES && Exact(t, o) && 0 < m && InBlock(o) + m <= BSIZE
    ensures BlockNo(o) < MAXFILE && Needs(o + m) == Needs(o) + New(t, BlockNo(o))
  {
    var bn := BlockNo(o);
    assert bn * BSIZE <= o < bn * BSIZE + BSIZE;
    assert t[SlotOf(bn)] == 0 <==> bn * BSIZE == o;
  }

  lemma AppendFits(sb: Super, d: Disk, ino: seq<Inode>, free: nat, e: Disk, jno: seq<Inode>, owner: map<nat, Slot>,
                   free': nat, i: nat, off: nat, src: seq<Byte>, k: nat, m: nat)
    requires k < |src| && off + |src| <= MAXBYTES && m == Chunk(|src| - k, off + k)
    requires Appending(sb, d, ino, free, e, jno, owner, free', i, off, src, k)
    requires free + Needs(off + |src|) - Needs(off) <= sb.size
    ensures BlockNo(off + k) < MAXFILE && 0 < m && k + m <= |src| && InBlock(off + k) + m <= BSIZE
    ensures AllReadable(e, jno) && Image(sb, e, jno, owner, free') && i < |jno| == |ino|
    ensures free' + New(Tables(e, jno)[i], BlockNo(off + k)) <= sb.size
  {
    hide Image, Tables, Exact, Needs, BlockNo, InBlock, Chunk, New, Piece;
    WroteReadable(d, ino, e, jno, i, off, Piece(src, 0, k));
    hide Wrote;
    ChunkFits(|src| - k, off + k);
    NeedsNext(Tables(e, jno)[i], off + k, m);
    NeedsMore(off + k + m, off + |src|);
  }

  lemma LocateSame(sb: Super, d: Disk, ino: seq<Inode>, owner: map<nat, Slot>, free: nat, i: nat, bn: nat)
    requires Image(sb, d, ino, owner, free) && i < |ino| && bn < MAXFILE && New(Tables(d, ino)[i], bn) == 0
    ensures Locates(sb, d, ino, free, d, ino, owner, free, i, bn)
  {
    hide Tables, Space;
    ImageReadable(sb, d, ino, owner, free);
    ExtendsSelf(d, ino, i);
  }

  lemma LocateDirect(sb: Super, d: Disk, ino: seq<Inode>, owner: map<nat, Slot>, free: nat, i: nat, bn: nat)
    requires Image(sb, d, ino, owner, free) && i < |ino| && bn < NDIRECT && ino[i].addrs[bn] == 0
    requires free < sb.size
    ensures Locates(sb, d, ino, free, d, WithAddr(ino, i, bn, free), owner[free := Slot(i, bn)], free + 1, i, bn)
  {
    TakeAddr(sb, d, ino, owner, free, i, bn);
    TableHas(d, ino, i, bn);
    hide Tables, Extends, WithAddr, Owned;
  }

  lemma LocatedDirect(sb: Super, d: Disk, ino: seq<Inode>, free: nat, e: Disk, jno: seq<Inode>, owner: map<nat, Slot>,
                      free': nat, i: nat, bn: nat)
    requires Locates(sb, d, ino, free, e, jno, owner, free', i, bn) && bn < NDIRECT
    ensures AllReadable(e, jno) && i < |jno| && Tables(e, jno)[i][SlotOf(bn)] == jno[i].addrs[bn]
  {
    hide Image, Extends, Tables;
    ExtendsKeeps(d, ino, e, jno, i);
    assert i < |jno| by { ExtendsShape(d, ino, e, jno, i); }
    TableHas(e, jno, i, bn);
  }

  lemma ExtendsShape(d: Disk, ino: seq<Inode>, f: Disk, jno: seq<Inode>, i: nat)
    requires Extends(d, ino, f, jno, i)
    ensures AllReadable(d, ino) && AllReadable(f, jno) && i < |ino| == |jno|
  {
  }

  lemma LocatedIndirect(sb: Super, d: Disk, ino: seq<Inode>, free: nat, e: Disk, jno: seq<Inode>,
                        owner: map<nat, Slot>, free': nat, i: nat, j: nat)
    requires Locates(sb, d, ino, free, e, jno, owner, free', i, NDIRECT + j)
    ensures AllReadable(e, jno) && i < |jno| && jno[i].addrs[INDIRECT] < |e|
    ensures Tables(e, jno)[i][SlotOf(NDIRECT + j)] == Word(e[jno[i].addrs[INDIRECT]], j)
  {
    hide Image, Extends, Tables, Word;
    ExtendsShape(d, ino, e, jno, i);
    TableHas(e, jno, i, INDIRECT);
    IndirectEntry(e, jno, i, j);
  }

  // How the addresses of an inode say what is new.
  lemma RowShape(d: Disk, ino: seq<Inode>, i: nat, bn: nat)
    requires AllReadable(d, ino) && i < |ino| && bn < MAXFILE
    ensures |ino[i].addrs| == NDIRECT + 1
    ensures bn < NDIRECT ==> New(Tables(d, ino)[i], bn) == if ino[i].addrs[bn] == 0 then 1 else 0
    ensures bn >= NDIRECT && ino[i].addrs[INDIRECT] == 0 ==> New(Tables(d, ino)[i], bn) == 2
  {
    if bn < NDIRECT {
      TableHas(d, ino, i, bn);
    } else {
      TableHas(d, ino, i, INDIRECT);
      if ino[i].addrs[INDIRECT] == 0 {
        NoIndirect(d, ino, i, bn - NDIRECT);
      }
    }
    hide Tables;
  }

  // The indirect block is there, and nothing else is new.
  ghost predicate HasIndirect(sb: Super, d: Disk, ino: seq<Inode>, free: nat, e: Disk, jno: seq<Inode>,
                              owner: map<nat, Slot>, free': nat, i: nat)
  {
    && AllReadable(d, ino) && AllReadable(e, jno)
    && Image(sb, e, jno, owner, free') && Extends(d, ino, e, jno, i)
    && SameRows(Tables(d, ino), Tables(e, jno), i)
    && var t, u := Tables(d, ino)[i], Tables(e, jno)[i];
    && u[INDIRECT] != 0 && (forall s :: 0 <= s < SLOTS && s != INDIRECT ==> u[s] == t[s])
    && free' == free + if t[INDIRECT] == 0 then 1 else 0
  }

  lemma IndirectThere(sb: Super, d: Disk, ino: seq<Inode>, owner: map<nat, Slot>, free: nat, i: nat)
    requires Image(sb, d, ino, owner, free) && i < |ino|
    requires ino[i].addrs[INDIRECT] == 0 ==> free < sb.size
    ensures if ino[i].addrs[INDIRECT] == 0
            then HasIndirect(sb, d, ino, free, d, WithAddr(ino, i, INDIRECT, free), owner[free := Slot(i, INDIRECT)],
              free + 1, i)
            else HasIndirect(sb, d, ino, free, d, ino, owner, free, i)
  {
    TableHas(d, ino, i, INDIRECT);
    ImageReadable(sb, d, ino, owner, free);
    ExtendsSelf(d, ino, i);
    if ino[i].addrs[INDIRECT] == 0 {
      TakeAddr(sb, d, ino, owner, free, i, INDIRECT);
    }
    hide Tables, Extends, WithAddr, Owned;
  }

  lemma EntryThere(sb: Super, d: Disk, ino: seq<Inode>, free: nat, e: Disk, jno: seq<Inode>, owner: map<nat, Slot>,
                   free': nat, i: nat, j: nat)
    requires HasIndirect(sb, d, ino, free, e, jno, owner, free', i) && i < |ino| && j < NINDIRECT
    requires free + New(Tables(d, ino)[i], NDIRECT + j) <= sb.size
    ensures i < |jno| && AllReadable(e, jno) && jno[i].addrs[INDIRECT] < |e|
    ensures Tables(e, jno)[i][INDIRECT + 1 + j] == Word(e[jno[i].addrs[INDIRECT]], j)
    ensures var n := jno[i].addrs[INDIRECT];
            if Word(e[n], j) == 0 then
              && free' < WORD
              && Locates(sb, d, ino, free, e[n := WithWord(e[n], j, free')], jno,
                owner[free' := Slot(i, INDIRECT + 1 + j)], free' + 1, i, NDIRECT + j)
            else Locates(sb, d, ino, free, e, jno, owner, free', i, NDIRECT + j)
  {
    hide Tables, Extends, Owned, Word, WithWord, Image;
    ExtendsKeeps(d, ino, e, jno, i);
    TableHas(e, jno, i, INDIRECT);
    IndirectEntry(e, jno, i, j);
    ImageReadable(sb, e, jno, owner, free');
    var n := jno[i].addrs[INDIRECT];
    if Word(e[n], j) == 0 {
      TakeEntry(sb, e, jno, owner, free', i, j);
      var f := e[n := WithWord(e[n], j, free')];
      ImageReadable(sb, f, jno, owner[free' := Slot(i, INDIRECT + 1 + j)], free' + 1);
      ExtendsTwice(d, ino, e, jno, f, jno, i);
      assert SameRows(Tables(d, ino), Tables(f, jno), i);
      assert SlotOf(NDIRECT + j) == INDIRECT + 1 + j;
      assert free' + 1 == free + New(Tables(d, ino)[i], NDIRECT + j);
      assert Tables(f, jno)[i][SlotOf(NDIRECT + j)] == free' != 0;
      assert Tables(f, jno)[i][INDIRECT] != 0;
    }
  }

  /** mkfs, as it builds an image. */
  class Builder {
    const sb: Super
    var d: Disk
    var ino: seq<Inode>       // the inodes on the image
    var freeinode: nat
    var freeblock: nat
    ghost var owner: map<nat, Slot>
    ghost var files: seq<seq<Byte>>   // the bytes appended to each inode

    ghost predicate Valid()
      reads this
    {
      && Image(sb, d, ino, owner, freeblock) && FilesAre(d, ino, files)
      && freeblock == sb.datastart + Total(files)
      && freeinode <= |ino|
      && forall i :: freeinode <= i < |ino| ==> files[i] == []
    }

    /** A blank image: every block zero, inode 0 never used. */
    constructor (sb: Super, ninodes: nat)
      requires sb.Valid(ninodes) && ninodes > 0
      ensures Valid() && this.sb == sb && |ino| == |files| == ninodes && freeinode == 1 && freeblock == sb.datastart
      ensures forall i :: 0 <= i < ninodes ==> files[i] == []
    {
      this.sb := sb;
      d := Blank(sb.size);
      ino := Unused(ninodes);
      freeinode := 1;
      freeblock := sb.datastart;
      owner := map[];
      files := NoFiles(ninodes);
      new;
      BlankImage(sb, ninodes);
    }

    /** ialloc */
    method Ialloc() returns (inum: nat)
      requires Valid() && freeinode < |ino|
      modifies this
      ensures Valid() && inum == old(freeinode) && freeinode == old(freeinode) + 1
      ensures files == old(files) && ino == old(ino) && d == old(d) && freeblock == old(freeblock)
      ensures owner == old(owner)
    {
      hide Image, Total;
      inum := freeinode;
      freeinode := freeinode + 1;
      UnusedInode(d, ino, files, inum);
      ino := ino[inum := Inode(0, NoAddrs())];
    }

    // Block `bn` of the inode, taking the blocks that are missing.
    method Locate(i: nat, bn: nat) returns (x: nat)
      requires Image(sb, d, ino, owner, freeblock) && i < |ino| && bn < MAXFILE && AllReadable(d, ino)
      requires freeblock + New(Tables(d, ino)[i], bn) <= sb.size
      modifies this`d, this`ino, this`freeblock, this`owner
      ensures Locates(sb, old(d), old(ino), old(freeblock), d, ino, owner, freeblock, i, bn) && |ino| == |old(ino)|
      ensures x == Tables(d, ino)[i][SlotOf(bn)]
    {
      hide Image, Tables, Locates, HasIndirect, New, Word, WithWord, Readable;
      ghost var d0, ino0, free0, t := d, ino, freeblock, Tables(d, ino)[i];
      RowShape(d, ino, i, bn);
      if bn < NDIRECT {
        if ino[i].addrs[bn] == 0 {
          LocateDirect(sb, d, ino, owner, freeblock, i, bn);
          ino := WithAddr(ino, i, bn, freeblock);
          owner := owner[freeblock := Slot(i, bn)];
          freeblock := freeblock + 1;
        } else {
          LocateSame(sb, d, ino, owner, freeblock, i, bn);
        }
        x := ino[i].addrs[bn];
        LocatedDirect(sb, d0, ino0, free0, d, ino, owner, freeblock, i, bn);
      } else {
        IndirectThere(sb, d, ino, owner, freeblock, i);
        if ino[i].addrs[INDIRECT] == 0 {
          ino := WithAddr(ino, i, INDIRECT, freeblock);
          owner := owner[freeblock := Slot(i, INDIRECT)];
          freeblock := freeblock + 1;
        }
        EntryThere(sb, d0, ino0, free0, d, ino, owner, freeblock, i, bn - NDIRECT);
        var n := ino[i].addrs[INDIRECT];
        if Word(d[n], bn - NDIRECT) == 0 {
          d := d[n := WithWord(d[n], bn - NDIRECT, freeblock)];
          owner := owner[freeblock := Slot(i, INDIRECT + 1 + (bn - NDIRECT))];
          freeblock := freeblock + 1;
        }
        x := Word(d[n], bn - NDIRECT);
        LocatedIndirect(sb, d0, ino0, free0, d, ino, owner, freeblock, i, bn - NDIRECT);
      }
    }

    /** iappend */
    method Iappend(inum: nat, p: seq<Byte>)
      requires Valid() && inum < freeinode
      requires |files[inum]| + |p| <= MAXBYTES
      requires freeblock + Needs(|files[inum] + p|) - Needs(|files[inum]|) <= sb.size
      modifies this`d, this`ino, this`freeblock, this`owner, this`files
      ensures Valid() && |ino| == |old(ino)|
      ensures files == old(files)[inum := old(files[inum]) + p]
      ensures freeblock == old(freeblock) + Needs(|old(files[inum]) + p|) - Needs(|old(files[inum])|)
    {
      hide Image, FilesAre, Total, Appending, Needs, Exact, FileIs, Tables, Chunk, BlockNo, InBlock, Patched, Piece,
           Locates, New, SlotOf;
      ghost var d0, ino0, free0, owner0 := d, ino, freeblock, owner;
      FileShape(d, ino, files, inum);
      var off := ino[inum].size;
      AppendBegins(sb, d, ino, owner, freeblock, inum, off, p);
      var k := 0;
      while k < |p|
        invariant k <= |p| && |ino| == |ino0| && files == old(files)
        invariant Appending(sb, d0, ino0, free0, d, ino, owner, freeblock, inum, off, p, k)
      {
        var m := Chunk(|p| - k, off + k);
        AppendFits(sb, d0, ino0, free0, d, ino, owner, freeblock, inum, off, p, k, m);
        ghost var d1, ino1, free1, owner1 := d, ino, freeblock, owner;
        var x := Locate(inum, BlockNo(off + k));
        AppendGoesOn(sb, d0, ino0, free0, d1, ino1, owner1, free1, d, ino, owner, freeblock, inum, off, p, k, m);
        d := d[x := Patched(d[x], InBlock(off + k), Piece(p, k, m))];
        k := k + m;
      }
      AppendEnds(sb, d0, ino0, owner0, free0, files, d, ino, owner, freeblock, inum, p);
      TotalSet(files, inum, files[inum] + p);
      ino := ino[inum := Inode(off + k, ino[inum].addrs)];
      files := files[inum := files[inum] + p];
    }

    // The block that balloc makes: the bits before `used`.
    method MapBlock(used: nat) returns (buf: Block)
      requires used < BPB
      ensures BitsTo(buf, used)
    {
      buf := Zeroes();
      NoBitsAtAll();
      hide BlockBit, WithBit;
      for i := 0 to used
        invariant BitsTo(buf, i)
      {
        buf := WithBit(buf, i);
      }
    }

    /** The end of main: round the size of the root directory and write the free map. */
    method Finish(root: nat)
      requires Valid() && root < freeinode && |files[root]| < MAXBYTES && freeblock < BPB
      modifies this`d, this`ino
      ensures Finished(sb, d, ino, owner, files, root) && |ino| == |old(ino)|
    {
      hide Image, FilesAre, Finished, BitsTo, Total;
      var buf := MapBlock(freeblock);
      Finishes(sb, d, ino, owner, freeblock, files, root, buf);
      ino := ino[root := Inode((ino[root].size / BSIZE + 1) * BSIZE, ino[root].addrs)];
      d := d[sb.bmapstart := buf];
    }
  }

  /** The kernel reads back from a finished image what was appended, and allocates nothing. */
  method ReadBack(sb: Super, d: Disk, ino: seq<Inode>, ghost owner: map<nat, Slot>, ghost files: seq<seq<Byte>>,
                  ghost root: nat, i: nat)
    returns (c: seq<Byte>, fs: Fs)
    requires Finished(sb, d, ino, owner, files, root) && i < |ino| && i != root
    ensures c == files[i]
    ensures fs.d == d && fs.ino == ino && fs.logged == {}
  {
    hide Good, NoHoles, Space, RoundedUp, Table, Piece, ReadSoFar, HasFile, Tables, Needed, ReadFills, AllReadable;
    fs := new Fs(sb, d, ino, owner);
    ImageFile(d, ino, i, files[i]);
    GoodFacts(sb, d, ino, owner);
    AllThere(d, ino, i);
    hide Finished;
    c := fs.Readi(i, 0, ino[i].size);
    ReadsAll(sb, d, ino, d, ino, i, 0, ino[i].size, |c|);
    if c != [] {
      WholeFile(d, ino[i], files[i], c);
    }
  }

  lemma AllThere(d: Disk, ino: seq<Inode>, i: nat)
    requires AllReadable(d, ino) && i < |ino| && ino[i].size <= MAXBYTES && NoHoles(Tables(d, ino)[i], ino[i].size)
    ensures Needed(Tables(d, ino)[i], 0, ino[i].size) == {}
  {
    hide Tables, Needed, NoHoles, AllReadable;
    RowRooted(d, ino, i);
    NoHolesIff(Tables(d, ino)[i], ino[i].size);
  }

  lemma ImageFile(d: Disk, ino: seq<Inode>, i: nat, f: seq<Byte>)
    requires i < |ino| && HasFile(d, ino[i], f, |f|)
    ensures ino[i].size == |f| <= MAXBYTES
  {
    hide Space, Table;
  }

  lemma WholeFile(d: Disk, ip: Inode, f: seq<Byte>, c: seq<Byte>)
    requires HasFile(d, ip, f, |f|) && ReadSoFar(d, ip, 0, c) && |c| == |f|
    ensures c == f
  {
    hide Contents;
    assert ZeroTo(f, |f|) == f;
  }
}
