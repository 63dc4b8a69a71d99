/**
 Bookkeeping for writei (labo2/kernel/fs.c:506-539): what the bytes of all files are after
 part of a write, and which blocks it has logged.
 */
module Writing {
  import opened Blocks
  import opened Inodes
  import RedoLog

  // What bmap passes to log_write, given the blocks of the inode before and after.
  function BmapLog(sb: Super, t: seq<nat>, u: seq<nat>, bn: nat): set<nat>
    requires |t| == |u| == SLOTS && bn < MAXFILE
  {
    (if u[INDIRECT] != t[INDIRECT] then {sb.BBlock(u[INDIRECT]), u[INDIRECT]} else {}) +
    (if u[SlotOf(bn)] != t[SlotOf(bn)]
     then {sb.BBlock(u[SlotOf(bn)]), u[SlotOf(bn)]} + (if bn >= NDIRECT then {u[INDIRECT]} else {})
     else {})
  }

  // Inode `i` has the bytes `x` at `off`; no other byte of any file changed, nor a slot of another.
  ghost predicate Wrote(d: Disk, ino: seq<Inode>, f: Disk, jno: seq<Inode>, i: nat, off: nat, x: seq<Byte>) {
    && AllReadable(d, ino) && AllReadable(f, jno)
    && |jno| == |ino| && i < |ino| && off + |x| <= MAXBYTES
    && (forall j :: 0 <= j < |ino| && j != i ==>
          && jno[j] == ino[j] && Tables(f, jno)[j] == Tables(d, ino)[j]
          && Space(f, Tables(f, jno)[j]) == Space(d, Tables(d, ino)[j]))
    && jno[i].size == ino[i].size
    && Space(f, Tables(f, jno)[i]) == Patched(Space(d, Tables(d, ino)[i]), off, x)
  }

  lemma WroteNothing(d: Disk, ino: seq<Inode>, i: nat, off: nat)
    requires AllReadable(d, ino) && i < |ino| && off <= MAXBYTES
    ensures Wrote(d, ino, d, ino, i, off, [])
  {
  }

  lemma PatchedTwice<T>(b: seq<T>, o: nat, x: seq<T>, y: seq<T>)
    requires o + |x| + |y| <= |b|
    ensures Patched(Patched(b, o, x), o + |x|, y) == Patched(b, o, x + y)
  {
  }

  lemma WroteThenExtends(d: Disk, ino: seq<Inode>, e: Disk, jno: seq<Inode>, f: Disk, kno: seq<Inode>, i: nat,
                         off: nat, x: seq<Byte>)
    requires Wrote(d, ino, e, jno, i, off, x) && Extends(e, jno, f, kno, i)
    ensures Wrote(d, ino, f, kno, i, off, x)
  {
    hide Space, Tables, Patched;
  }

  lemma ExtendsThenWrote(d: Disk, ino: seq<Inode>, e: Disk, jno: seq<Inode>, f: Disk, kno: seq<Inode>, i: nat,
                         off: nat, x: seq<Byte>)
    requires Extends(d, ino, e, jno, i) && Wrote(e, jno, f, kno, i, off, x)
    ensures Wrote(d, ino, f, kno, i, off, x)
  {
    hide Space, Tables, Patched;
  }

  lemma WroteTwice(d: Disk, ino: seq<Inode>, e: Disk, jno: seq<Inode>, f: Disk, kno: seq<Inode>, i: nat, off: nat,
                   x: seq<Byte>, y: seq<Byte>)
    requires Wrote(d, ino, e, jno, i, off, x) && Wrote(e, jno, f, kno, i, off + |x|, y)
    ensures Wrote(d, ino, f, kno, i, off, x + y)
  {
    PatchedTwice(Space(d, Tables(d, ino)[i]), off, x, y);
    hide Space, Tables, Patched;
  }

  // One copy into a block that bmap found.
  lemma GoodAfterCopy(sb: Super, d: Disk, ino: seq<Inode>, owner: map<nat, Slot>, i: nat, bn: nat, b: Block)
    requires Good(sb, d, ino, owner, {}) && i < |ino| && bn < MAXFILE
    requires Tables(d, ino)[i][SlotOf(bn)] != 0
    ensures var a := Tables(d, ino)[i][SlotOf(bn)];
            && sb.datastart <= a < |d|
            && Good(sb, d[a := b], ino, owner, {}) && Tables(d[a := b], ino) == Tables(d, ino)
  {
    var t := Tables(d, ino);
    var a := t[i][SlotOf(bn)];
    OwnedOf(sb, d, t, owner, {});
    assert a in owner;
    var e := d[a := b];
    DataBlock(d, ino, owner, i, bn, b);
    hide Owned, Tables, Marked, MapMatches;
    assert MapMatches(sb, e, owner.Keys + {}) by { MapFrame(sb, d, e, owner.Keys + {}); }
  }

  lemma MapFrame(sb: Super, d: Disk, e: Disk, used: set<nat>)
    requires sb.Valid(0) && |d| == |e| == sb.size && MapMatches(sb, d, used)
    requires forall c :: 0 <= c < sb.datastart ==> e[c] == d[c]
    ensures MapMatches(sb, e, used)
  {
    hide Marked;
    forall c | 0 <= c < sb.size ensures Marked(sb, e, c) <==> Marked(sb, d, c) {
      MarkedFrame(sb, d, e, c);
    }
  }

  lemma WroteAfterCopy(d: Disk, ino: seq<Inode>, owner: map<nat, Slot>, i: nat, bn: nat, o: nat, y: seq<Byte>)
    requires AllReadable(d, ino) && Owned(Tables(d, ino), owner) && i < |ino| && bn < MAXFILE && o + |y| <= BSIZE
    requires Tables(d, ino)[i][SlotOf(bn)] != 0 && Tables(d, ino)[i][SlotOf(bn)] < |d|
    ensures var a := Tables(d, ino)[i][SlotOf(bn)];
            Wrote(d, ino, d[a := Patched(d[a], o, y)], ino, i, bn * BSIZE + o, y)
  {
    var t := Tables(d, ino);
    var a := t[i][SlotOf(bn)];
    var b: Block := Patched(d[a], o, y);
    DataBlock(d, ino, owner, i, bn, b);
    SpaceAfterWrite(d, t, owner, i, bn, o, y);
    hide Owned, Space, Patched, Tables;
    forall j | 0 <= j < |ino| && j != i ensures Space(d[a := b], t[j]) == Space(d, t[j]) {
      SpaceOfOthers(d, t, owner, i, bn, b, j);
    }
  }

  predicate Aligned(o: nat) {
    o % BSIZE == 0
  }

  // How much of `left` bytes goes into the block of offset `o`.
  function Chunk(left: nat, o: nat): (m: nat)
    ensures m <= left && (left > 0 ==> m > 0)
    ensures m <= BSIZE - o % BSIZE
    ensures m < left ==> Aligned(o + m)
  {
    if left < BSIZE - o % BSIZE then left else
      assert (o + (BSIZE - o % BSIZE)) % BSIZE == 0;
      BSIZE - o % BSIZE
  }

  // ---------- The budget of one write ----------

  // The blocks of a file that a write of `n` bytes at `off` touches.
  function Touched(off: nat, n: nat): nat {
    if n == 0 then 0 else (off + n - 1) / BSIZE - off / BSIZE + 1
  }

  function One(b: bool): nat {
    if b then 1 else 0
  }

  // The blocks logged since `start` are data blocks, map blocks and the indirect block.
  ghost predicate Within(start: set<nat>, logged: set<nat>, u: seq<nat>, data: set<nat>, maps: set<nat>)
    requires |u| == SLOTS
  {
    forall b :: b in logged ==> b in start || b in data || b in maps || (b == u[INDIRECT] && b != 0)
  }

  /**
   After `n` bytes of a write at `off` to a file whose blocks were `t` and now are `u`: one
   data block for each block touched, one map block for each block allocated.  A block that
   the file has where the write starts is not allocated.
   */
  predicate Counts(t: seq<nat>, u: seq<nat>, off: nat, n: nat, data: nat, maps: nat, gained: nat)
    requires |t| == |u| == SLOTS && off / BSIZE < MAXFILE
  {
    && data <= Touched(off, n)
    && maps <= gained + One(u[INDIRECT] != t[INDIRECT])
    && gained + One(n > 0 && t[SlotOf(off / BSIZE)] != 0) <= Touched(off, n)
  }

  // No block that the file had is lost.
  ghost predicate Keeps(t: seq<nat>, u: seq<nat>) {
    |t| == |u| == SLOTS && forall s :: 0 <= s < SLOTS && t[s] != 0 ==> u[s] == t[s]
  }

  ghost predicate Budget(start: set<nat>, logged: set<nat>, t: seq<nat>, u: seq<nat>, off: nat, n: nat, data: set<nat>,
                         maps: set<nat>, gained: nat)
    requires off / BSIZE < MAXFILE
  {
    Keeps(t, u) && Within(start, logged, u, data, maps) && Counts(t, u, off, n, |data|, |maps|, gained)
  }

  lemma BudgetStart(start: set<nat>, t: seq<nat>, off: nat)
    requires |t| == SLOTS && off / BSIZE < MAXFILE
    ensures Budget(start, start, t, t, off, 0, {}, {}, 0)
  {
  }

  function Add(s: set<nat>, grow: bool, x: nat): (r: set<nat>)
    ensures |r| <= |s| + One(grow)
    ensures forall y :: y in s ==> y in r
    ensures grow ==> x in r
  {
    if grow && x !in s then s + {x} else s
  }

  // The map blocks logged so far and those that one call of bmap changes.
  function AddMaps(sb: Super, maps: set<nat>, u: seq<nat>, v: seq<nat>, bn: nat): (r: set<nat>)
    requires |u| == |v| == SLOTS && bn < MAXFILE
    ensures |r| <= |maps| + One(u[INDIRECT] != v[INDIRECT]) + One(u[SlotOf(bn)] == 0)
  {
    Add(Add(maps, u[INDIRECT] != v[INDIRECT], sb.BBlock(v[INDIRECT])), u[SlotOf(bn)] == 0, sb.BBlock(v[SlotOf(bn)]))
  }

  lemma WithinNext(sb: Super, start: set<nat>, logged: set<nat>, u: seq<nat>, v: seq<nat>, bn: nat, data: set<nat>,
                   maps: set<nat>)
    requires bn < MAXFILE && Keeps(u, v)
    requires v[SlotOf(bn)] != 0 && (bn >= NDIRECT ==> v[INDIRECT] != 0)
    requires Within(start, logged, u, data, maps)
    ensures Within(start, logged + BmapLog(sb, u, v, bn) + {v[SlotOf(bn)]}, v,
                   Add(data, true, v[SlotOf(bn)]), AddMaps(sb, maps, u, v, bn))
  {
  }

  lemma CountsNext(t: seq<nat>, u: seq<nat>, v: seq<nat>, off: nat, n: nat, m: nat, data: nat, maps: nat, gained: nat)
    requires off / BSIZE < MAXFILE && (off + n) / BSIZE < MAXFILE
    requires Keeps(t, u) && Keeps(u, v)
    requires 0 < m <= BSIZE - (off + n) % BSIZE && (n > 0 ==> (off + n) % BSIZE == 0)
    requires Counts(t, u, off, n, data, maps, gained)
    ensures var isNew := u[SlotOf((off + n) / BSIZE)] == 0;
            Counts(t, v, off, n + m, data + 1, maps + One(u[INDIRECT] != v[INDIRECT]) + One(isNew), gained + One(isNew))
  {
    TouchedNext(off, n, m);
    hide Touched;
  }

  lemma KeepsTwice(t: seq<nat>, u: seq<nat>, v: seq<nat>)
    requires Keeps(t, u) && Keeps(u, v)
    ensures Keeps(t, v)
  {
  }

  // bmap found or allocated a block and m bytes were copied into it.
  lemma BudgetNext(sb: Super, start: set<nat>, logged: set<nat>, t: seq<nat>, u: seq<nat>, v: seq<nat>, off: nat,
                   n: nat, m: nat, data: set<nat>, maps: set<nat>, gained: nat)
    requires off / BSIZE < MAXFILE && (off + n) / BSIZE < MAXFILE
    requires 0 < m <= BSIZE - (off + n) % BSIZE && (n > 0 ==> (off + n) % BSIZE == 0)
    requires Budget(start, logged, t, u, off, n, data, maps, gained) && Keeps(u, v)
    requires v[SlotOf((off + n) / BSIZE)] != 0 && ((off + n) / BSIZE >= NDIRECT ==> v[INDIRECT] != 0)
    ensures var bn := (off + n) / BSIZE;
            var a := v[SlotOf(bn)];
            Budget(start, logged + BmapLog(sb, u, v, bn) + {a}, t, v, off, n + m,
                   Add(data, true, a), AddMaps(sb, maps, u, v, bn), gained + One(u[SlotOf(bn)] == 0))
  {
    WithinNext(sb, start, logged, u, v, (off + n) / BSIZE, data, maps);
    CountsNext(t, u, v, off, n, m, |data|, |maps|, gained);
    KeepsTwice(t, u, v);
    hide BmapLog, AddMaps, Add, Touched, Keeps, Within;
  }

  // bmap found no free block; it may have allocated the indirect block first.
  lemma BudgetStop(sb: Super, start: set<nat>, logged: set<nat>, t: seq<nat>, u: seq<nat>, v: seq<nat>, off: nat,
                   n: nat, bn: nat, data: set<nat>, maps: set<nat>, gained: nat)
    requires off / BSIZE < MAXFILE && bn < MAXFILE
    requires Budget(start, logged, t, u, off, n, data, maps, gained) && Keeps(u, v) && v[SlotOf(bn)] == 0
    ensures Budget(start, logged + BmapLog(sb, u, v, bn), t, v, off, n,
                   data, Add(maps, u[INDIRECT] != v[INDIRECT], sb.BBlock(v[INDIRECT])), gained)
  {
    KeepsTwice(t, u, v);
    hide Touched;
  }

  /**
   A write of at most three blocks, to a file that has the block it starts in the middle
   of, logs at most ten blocks: with the inode block, MAXOPBLOCKS.
   */
  lemma BudgetTotal(start: set<nat>, logged: set<nat>, t: seq<nat>, u: seq<nat>, off: nat, n: nat, data: set<nat>,
                    maps: set<nat>, gained: nat, inode: nat)
    requires off / BSIZE < MAXFILE && Budget(start, logged, t, u, off, n, data, maps, gained)
    requires n <= 3 * BSIZE && (off % BSIZE != 0 ==> t[SlotOf(off / BSIZE)] != 0)
    ensures |logged + {inode} - start| <= RedoLog.MAXOPBLOCKS
  {
    var all := Add(Add(data + maps, u[INDIRECT] != 0, u[INDIRECT]), true, inode);
    assert |data + maps| <= |data| + |maps|;
    SubsetSize(logged + {inode} - start, all);
    assert Touched(off, n) <= 3 + One(off % BSIZE != 0);
    assert n == 0 ==> Touched(off, n) == 0;
  }

  lemma {:induction false} SubsetSize(a: set<nat>, b: set<nat>)
    requires a <= b
    ensures |a| <= |b|
  {
    if a != {} {
      var x :| x in a;
      SubsetSize(a - {x}, b - {x});
    }
  }

  lemma TouchedNext(off: nat, n: nat, m: nat)
    requires 0 < m <= BSIZE - (off + n) % BSIZE && (n > 0 ==> (off + n) % BSIZE == 0)
    ensures Touched(off, n + m) == Touched(off, n) + 1
    ensures n == 0 ==> (off + n) / BSIZE == off / BSIZE
  {
  }

  // ---------- The outcome of a write ----------

  // The bytes `c` of a file with `x` written over them at `off`.
  function Spliced(c: seq<Byte>, off: nat, x: seq<Byte>): seq<Byte>
    requires off <= |c|
  {
    c[..off] + x + if off + |x| <= |c| then c[off + |x|..] else []
  }

  // The blocks from that of `off` up to byte `end` are all there.
  ghost predicate Mapped(u: seq<nat>, off: nat, end: nat)
    requires |u| == SLOTS && end <= MAXBYTES
  {
    forall bn :: off / BSIZE <= bn < MAXFILE && bn * BSIZE < end ==> u[SlotOf(bn)] != 0
  }

  lemma MappedNext(u: seq<nat>, v: seq<nat>, off: nat, end: nat, m: nat)
    requires off <= end && Keeps(u, v) && end + m <= MAXBYTES && end / BSIZE < MAXFILE
    requires 0 < m <= BSIZE - end % BSIZE && (end > off ==> end % BSIZE == 0) && v[SlotOf(end / BSIZE)] != 0
    requires end > off ==> Mapped(u, off, end)
    ensures Mapped(v, off, end + m)
  {
    forall bn | off / BSIZE <= bn < MAXFILE && bn * BSIZE < end + m ensures v[SlotOf(bn)] != 0 {
      if bn != end / BSIZE {
        BlockBefore(off, end, m, bn);
        assert u[SlotOf(bn)] != 0;
      }
    }
  }

  lemma BlockBefore(off: nat, end: nat, m: nat, bn: nat)
    requires off <= end && 0 < m <= BSIZE - end % BSIZE && (end > off ==> end % BSIZE == 0)
    requires off / BSIZE <= bn && bn * BSIZE < end + m && bn != end / BSIZE
    ensures end > off && bn * BSIZE < end
  {
  }

  // Growing a file over blocks that are all there leaves no hole.
  lemma NoHolesAfter(t: seq<nat>, u: seq<nat>, size: nat, off: nat, end: nat)
    requires Keeps(t, u) && off <= size <= MAXBYTES && off <= end <= MAXBYTES
    requires NoHoles(t, size) && (end > off ==> Mapped(u, off, end))
    ensures NoHoles(u, if end > size then end else size)
  {
    forall bn | 0 <= bn < MAXFILE && bn * BSIZE < (if end > size then end else size)
      ensures u[SlotOf(bn)] != 0
    {
      if bn * BSIZE < size {
        assert t[SlotOf(bn)] != 0;
      } else {
        assert off / BSIZE <= bn;
      }
    }
  }

  // The size of an inode plays no part in its table.
  lemma Resized(d: Disk, ino: seq<Inode>, i: nat, size: nat)
    requires AllReadable(d, ino) && i < |ino|
    ensures AllReadable(d, ino[i := ino[i].(size := size)])
    ensures Tables(d, ino[i := ino[i].(size := size)]) == Tables(d, ino)
  {
  }

  // No file but `i` changed its inode, its blocks or its bytes.
  ghost predicate OthersKept(d: Disk, ino: seq<Inode>, f: Disk, jno: seq<Inode>, i: nat) {
    && AllReadable(d, ino) && AllReadable(f, jno) && |jno| == |ino|
    && forall j :: 0 <= j < |ino| && j != i ==>
         && jno[j] == ino[j] && Table(f, jno[j]) == Table(d, ino[j])
         && Space(f, Table(f, jno[j])) == Space(d, Table(d, ino[j]))
  }

  // The other files have the holes that they had.
  lemma OthersHoles(d: Disk, ino: seq<Inode>, f: Disk, jno: seq<Inode>, i: nat, j: nat)
    requires OthersKept(d, ino, f, jno, i) && j < |ino| && j != i && ino[j].size <= MAXBYTES
    ensures AllReadable(d, ino) && AllReadable(f, jno) && |jno| == |ino| && jno[j].size == ino[j].size
    ensures NoHoles(Tables(f, jno)[j], jno[j].size) <==> NoHoles(Tables(d, ino)[j], ino[j].size)
  {
    hide Table, Space, NoHoles;
    TableOf(d, ino, j);
    TableOf(f, jno, j);
  }

  /** Files without holes stay so, all of them, when the one that changes does. */
  lemma StillHoleFree(d: Disk, ino: seq<Inode>, f: Disk, jno: seq<Inode>, i: nat)
    requires OthersKept(d, ino, f, jno, i) && HoleFree(d, ino) && AllReadable(f, jno)
    requires i < |jno| && jno[i].size <= MAXBYTES && NoHoles(Tables(f, jno)[i], jno[i].size)
    ensures HoleFree(f, jno)
  {
    hide Table, Tables, Space, NoHoles;
    forall j | 0 <= j < |jno|
      ensures jno[j].size <= MAXBYTES && NoHoles(Tables(f, jno)[j], jno[j].size)
    {
      if j != i {
        OthersHoles(d, ino, f, jno, i, j);
      }
    }
  }

  lemma HoleFreeFile(d: Disk, ino: seq<Inode>, i: nat)
    requires HoleFree(d, ino) && i < |ino|
    ensures AllReadable(d, ino) && ino[i].size <= MAXBYTES && NoHoles(Tables(d, ino)[i], ino[i].size)
  {
  }

  lemma SplicedIs(space: seq<Byte>, size: nat, off: nat, x: seq<Byte>)
    requires off <= size <= |space| && off + |x| <= |space|
    ensures Patched(space, off, x)[..if off + |x| > size then off + |x| else size] == Spliced(space[..size], off, x)
  {
  }

  // Inode `i` after a write that ends at `off + |x|`.
  lemma WriteEnds(d: Disk, ino: seq<Inode>, f: Disk, jno: seq<Inode>, i: nat, off: nat, x: seq<Byte>)
    requires Wrote(d, ino, f, jno, i, off, x) && off <= ino[i].size <= MAXBYTES
    ensures var size := if off + |x| > ino[i].size then off + |x| else ino[i].size;
            var kno := jno[i := jno[i].(size := size)];
            && AllReadable(f, kno) && Tables(f, kno) == Tables(f, jno)
            && OthersKept(d, ino, f, kno, i)
            && Contents(f, kno[i]) == Spliced(Contents(d, ino[i]), off, x)
  {
    var size := if off + |x| > ino[i].size then off + |x| else ino[i].size;
    var kno := jno[i := jno[i].(size := size)];
    Resized(f, jno, i, size);
    assert Tables(f, kno)[i] == Table(f, kno[i]);
    assert Tables(d, ino)[i] == Table(d, ino[i]);
    SplicedIs(Space(d, Table(d, ino[i])), ino[i].size, off, x);
    hide Space, Table, Patched, Spliced;
  }

  // Where writei is once it has written `x`.
  ghost predicate WriteState(start: set<nat>, d: Disk, ino: seq<Inode>, f: Disk, jno: seq<Inode>, logged: set<nat>,
                             i: nat, off: nat, x: seq<Byte>, data: set<nat>, maps: set<nat>, gained: nat)
  {
    && Wrote(d, ino, f, jno, i, off, x)
    && Keeps(Tables(d, ino)[i], Tables(f, jno)[i])
    && (x == [] || Mapped(Tables(f, jno)[i], off, off + |x|))
    && if off == MAXBYTES then logged == start
       else Budget(start, logged, Tables(d, ino)[i], Tables(f, jno)[i], off, |x|, data, maps, gained)
  }

  lemma WriteBegins(start: set<nat>, d: Disk, ino: seq<Inode>, i: nat, off: nat)
    requires AllReadable(d, ino) && i < |ino| && off <= MAXBYTES
    ensures WriteState(start, d, ino, d, ino, start, i, off, [], {}, {}, 0)
  {
    WroteNothing(d, ino, i, off);
    if off < MAXBYTES {
      BudgetStart(start, Tables(d, ino)[i], off);
    }
  }

  lemma WriteGoesOn(sb: Super, start: set<nat>, d: Disk, ino: seq<Inode>, e: Disk, jno: seq<Inode>, logged: set<nat>,
                    f: Disk, kno: seq<Inode>,
                    i: nat, off: nat, x: seq<Byte>, y: seq<Byte>, bn: nat, data: set<nat>, maps: set<nat>, gained: nat)
    requires WriteState(start, d, ino, e, jno, logged, i, off, x, data, maps, gained)
    requires Wrote(e, jno, f, kno, i, off + |x|, y)
    requires off + |x| < MAXBYTES && bn == (off + |x|) / BSIZE < MAXFILE
    requires 0 < |y| <= BSIZE - (off + |x|) % BSIZE && (|x| > 0 ==> Aligned(off + |x|))
    requires var u, v := Tables(e, jno)[i], Tables(f, kno)[i];
             Keeps(u, v) && v[SlotOf(bn)] != 0 && (bn >= NDIRECT ==> v[INDIRECT] != 0)
    ensures var u, v := Tables(e, jno)[i], Tables(f, kno)[i];
            var a := v[SlotOf(bn)];
            WriteState(start, d, ino, f, kno, logged + BmapLog(sb, u, v, bn) + {a}, i, off, x + y,
                       Add(data, true, a), AddMaps(sb, maps, u, v, bn), gained + One(u[SlotOf(bn)] == 0))
  {
    hide Wrote, Keeps, Budget, Mapped, BmapLog, Add, AddMaps, Tables, SlotOf;
    StateReadable(start, d, ino, e, jno, logged, i, off, x, data, maps, gained);
    WroteReadable(e, jno, f, kno, i, off + |x|, y);
    var t, u, v := Tables(d, ino)[i], Tables(e, jno)[i], Tables(f, kno)[i];
    WroteTwice(d, ino, e, jno, f, kno, i, off, x, y);
    BudgetNext(sb, start, logged, t, u, v, off, |x|, |y|, data, maps, gained);
    MappedNext(u, v, off, off + |x|, |y|);
    KeepsTwice(t, u, v);
  }

  lemma WroteReadable(d: Disk, ino: seq<Inode>, f: Disk, jno: seq<Inode>, i: nat, off: nat, x: seq<Byte>)
    requires Wrote(d, ino, f, jno, i, off, x)
    ensures AllReadable(d, ino) && AllReadable(f, jno) && |jno| == |ino| && i < |ino| && off + |x| <= MAXBYTES
  {
  }

  lemma WriteStops(sb: Super, start: set<nat>, d: Disk, ino: seq<Inode>, e: Disk, jno: seq<Inode>, logged: set<nat>,
                   f: Disk, kno: seq<Inode>,
                   i: nat, off: nat, x: seq<Byte>, bn: nat, data: set<nat>, maps: set<nat>, gained: nat)
    requires WriteState(start, d, ino, e, jno, logged, i, off, x, data, maps, gained)
    requires Extends(e, jno, f, kno, i) && bn < MAXFILE && off < MAXBYTES
    requires Keeps(Tables(e, jno)[i], Tables(f, kno)[i]) && Tables(f, kno)[i][SlotOf(bn)] == 0
    ensures var u, v := Tables(e, jno)[i], Tables(f, kno)[i];
            WriteState(start, d, ino, f, kno, logged + BmapLog(sb, u, v, bn), i, off, x,
                       data, Add(maps, u[INDIRECT] != v[INDIRECT], sb.BBlock(v[INDIRECT])), gained)
  {
    var t, u, v := Tables(d, ino)[i], Tables(e, jno)[i], Tables(f, kno)[i];
    WroteThenExtends(d, ino, e, jno, f, kno, i, off, x);
    BudgetStop(sb, start, logged, t, u, v, off, |x|, bn, data, maps, gained);
    KeepsTwice(t, u, v);
    assert x != [] ==> Mapped(v, off, off + |x|);
    hide Wrote, Keeps, Budget, Mapped, BmapLog, Add, Tables, Extends;
  }

  lemma StateReadable(start: set<nat>, d: Disk, ino: seq<Inode>, f: Disk, jno: seq<Inode>, logged: set<nat>, i: nat,
                      off: nat, x: seq<Byte>, data: set<nat>, maps: set<nat>, gained: nat)
    requires WriteState(start, d, ino, f, jno, logged, i, off, x, data, maps, gained)
    ensures AllReadable(d, ino) && AllReadable(f, jno) && |jno| == |ino| && i < |ino| && jno[i].size == ino[i].size
    ensures off + |x| <= MAXBYTES
  {
  }

  // The whole write, inode included.
  lemma WriteCompletes(start: set<nat>, d: Disk, ino: seq<Inode>, f: Disk, jno: seq<Inode>, logged: set<nat>, i: nat,
                       off: nat, x: seq<Byte>, data: set<nat>, maps: set<nat>, gained: nat, inode: nat)
    requires WriteState(start, d, ino, f, jno, logged, i, off, x, data, maps, gained)
    requires off <= ino[i].size <= MAXBYTES
    ensures var size := if off + |x| > ino[i].size then off + |x| else ino[i].size;
            var kno := jno[i := jno[i].(size := size)];
            && AllReadable(f, kno) && Tables(f, kno) == Tables(f, jno)
            && OthersKept(d, ino, f, kno, i)
            && Contents(f, kno[i]) == Spliced(Contents(d, ino[i]), off, x)
            && (NoHoles(Tables(d, ino)[i], ino[i].size) ==>
                  && NoHoles(Tables(f, kno)[i], size)
                  && (|x| <= 3 * BSIZE ==> |logged + {inode} - start| <= RedoLog.MAXOPBLOCKS))
  {
    var t, u := Tables(d, ino)[i], Tables(f, jno)[i];
    WriteEnds(d, ino, f, jno, i, off, x);
    if NoHoles(t, ino[i].size) {
      NoHolesAfter(t, u, ino[i].size, off, off + |x|);
      if |x| <= 3 * BSIZE {
        if off < MAXBYTES {
          FirstBlockThere(t, ino[i].size, off);
          BudgetTotal(start, logged, t, u, off, |x|, data, maps, gained, inode);
        } else {
          assert start + {inode} - start <= {inode};
          SubsetSize(start + {inode} - start, {inode});
        }
      }
    }
  }

  lemma FirstBlockThere(t: seq<nat>, size: nat, off: nat)
    requires |t| == SLOTS && off <= size <= MAXBYTES && NoHoles(t, size) && off < MAXBYTES
    ensures off % BSIZE != 0 ==> t[SlotOf(off / BSIZE)] != 0
  {
  }

  // ---------- The loop of writei, by how far it is ----------

  function Piece(src: seq<Byte>, tot: nat, m: nat): (y: seq<Byte>)
    requires tot + m <= |src|
    ensures |y| == m
  {
    src[tot..tot + m]
  }

  // The first `tot` bytes of `src` are written.
  ghost predicate Progress(start: set<nat>, d: Disk, ino: seq<Inode>, f: Disk, jno: seq<Inode>, logged: set<nat>,
                           i: nat, off: nat, src: seq<Byte>, tot: nat, data: set<nat>, maps: set<nat>, gained: nat)
    requires tot <= |src|
  {
    WriteState(start, d, ino, f, jno, logged, i, off, Piece(src, 0, tot), data, maps, gained)
  }

  lemma ProgressGoesOn(sb: Super, start: set<nat>, d: Disk, ino: seq<Inode>, e: Disk, jno: seq<Inode>,
                       logged: set<nat>, f: Disk, kno: seq<Inode>,
                       i: nat, off: nat, src: seq<Byte>, tot: nat, m: nat, data: set<nat>, maps: set<nat>, gained: nat)
    requires tot < |src| && off + |src| <= MAXBYTES && (tot > 0 ==> Aligned(off + tot))
    requires m == Chunk(|src| - tot, off + tot)
    requires Progress(start, d, ino, e, jno, logged, i, off, src, tot, data, maps, gained)
    requires Wrote(e, jno, f, kno, i, off + tot, Piece(src, tot, m))
    requires var u, v, bn := Tables(e, jno)[i], Tables(f, kno)[i], BlockNo(off + tot);
             bn < MAXFILE && Keeps(u, v) && v[SlotOf(bn)] != 0 && (bn >= NDIRECT ==> v[INDIRECT] != 0)
    ensures var u, v, bn := Tables(e, jno)[i], Tables(f, kno)[i], BlockNo(off + tot);
            Progress(start, d, ino, f, kno, logged + BmapLog(sb, u, v, bn) + {v[SlotOf(bn)]}, i, off, src, tot + m,
                     Add(data, true, v[SlotOf(bn)]), AddMaps(sb, maps, u, v, bn), gained + One(u[SlotOf(bn)] == 0))
  {
    hide WriteState, Wrote, Keeps, Piece, BmapLog, Add, AddMaps, Tables, SlotOf, Chunk, Aligned, One;
    var x, y := Piece(src, 0, tot), Piece(src, tot, m);
    PieceNext(src, tot, m);
    ChunkFits(|src| - tot, off + tot);
    WriteGoesOn(sb, start, d, ino, e, jno, logged, f, kno, i, off, x, y, BlockNo(off + tot), data, maps, gained);
  }

  lemma PieceNext(src: seq<Byte>, tot: nat, m: nat)
    requires tot + m <= |src|
    ensures Piece(src, 0, tot) + Piece(src, tot, m) == Piece(src, 0, tot + m)
  {
  }

  // off / BSIZE
  function BlockNo(o: nat): nat {
    o / BSIZE
  }

  // off % BSIZE
  function InBlock(o: nat): nat {
    o % BSIZE
  }

  lemma OffsetParts(o: nat)
    ensures BlockNo(o) * BSIZE + InBlock(o) == o && InBlock(o) < BSIZE
    ensures o < MAXBYTES ==> BlockNo(o) < MAXFILE
  {
  }

  lemma ChunkFits(left: nat, o: nat)
    ensures Chunk(left, o) <= left && (left > 0 ==> Chunk(left, o) > 0)
    ensures InBlock(o) + Chunk(left, o) <= BSIZE
    ensures Chunk(left, o) < left ==> Aligned(o + Chunk(left, o))
  {
  }

  lemma ProgressBegins(start: set<nat>, d: Disk, ino: seq<Inode>, i: nat, off: nat, src: seq<Byte>)
    requires AllReadable(d, ino) && i < |ino| && off <= MAXBYTES
    ensures Progress(start, d, ino, d, ino, start, i, off, src, 0, {}, {}, 0)
  {
    WriteBegins(start, d, ino, i, off);
    assert Piece(src, 0, 0) == [];
  }

  lemma ProgressStops(sb: Super, start: set<nat>, d: Disk, ino: seq<Inode>, e: Disk, jno: seq<Inode>, logged: set<nat>,
                      f: Disk, kno: seq<Inode>,
                      i: nat, off: nat, src: seq<Byte>, tot: nat, data: set<nat>, maps: set<nat>, gained: nat)
    requires tot < |src| && off + |src| <= MAXBYTES
    requires Progress(start, d, ino, e, jno, logged, i, off, src, tot, data, maps, gained)
    requires Extends(e, jno, f, kno, i) && BlockNo(off + tot) < MAXFILE
    requires Keeps(Tables(e, jno)[i], Tables(f, kno)[i]) && Tables(f, kno)[i][SlotOf(BlockNo(off + tot))] == 0
    ensures var u, v := Tables(e, jno)[i], Tables(f, kno)[i];
            Progress(start, d, ino, f, kno, logged + BmapLog(sb, u, v, BlockNo(off + tot)), i, off, src, tot,
                     data, Add(maps, u[INDIRECT] != v[INDIRECT], sb.BBlock(v[INDIRECT])), gained)
  {
    hide WriteState, Keeps, Piece, BmapLog, Add, Tables, SlotOf, Extends;
    WriteStops(sb, start, d, ino, e, jno, logged, f, kno, i, off, Piece(src, 0, tot), BlockNo(off + tot), data, maps,
               gained);
  }

  lemma ProgressCompletes(start: set<nat>, d: Disk, ino: seq<Inode>, f: Disk, jno: seq<Inode>, logged: set<nat>,
                          i: nat, off: nat,
                          src: seq<Byte>, tot: nat, data: set<nat>, maps: set<nat>, gained: nat, inode: nat)
    requires tot <= |src| && Progress(start, d, ino, f, jno, logged, i, off, src, tot, data, maps, gained)
    requires i < |ino| && off <= ino[i].size <= MAXBYTES
    ensures AllReadable(d, ino) && AllReadable(f, jno) && |jno| == |ino| && jno[i].size == ino[i].size
    ensures off + tot <= MAXBYTES
    ensures var size := if off + tot > ino[i].size then off + tot else ino[i].size;
            var kno := jno[i := jno[i].(size := size)];
            && AllReadable(f, kno) && Tables(f, kno) == Tables(f, jno)
            && OthersKept(d, ino, f, kno, i)
            && Contents(f, kno[i]) == Spliced(Contents(d, ino[i]), off, Piece(src, 0, tot))
            && (NoHoles(Tables(d, ino)[i], ino[i].size) ==>
                  && NoHoles(Tables(f, kno)[i], size)
                  && (tot <= 3 * BSIZE ==> |logged + {inode} - start| <= RedoLog.MAXOPBLOCKS))
  {
    hide WriteState, Piece, Tables, Contents, Spliced, NoHoles, OthersKept;
    StateReadable(start, d, ino, f, jno, logged, i, off, Piece(src, 0, tot), data, maps, gained);
    WriteCompletes(start, d, ino, f, jno, logged, i, off, Piece(src, 0, tot), data, maps, gained, inode);
  }

  // ---------- One write after another ----------

  lemma OthersKeptTwice(d: Disk, ino: seq<Inode>, e: Disk, jno: seq<Inode>, f: Disk, kno: seq<Inode>, i: nat)
    requires OthersKept(d, ino, e, jno, i) && OthersKept(e, jno, f, kno, i)
    ensures OthersKept(d, ino, f, kno, i)
  {
    hide Space, Table;
  }

  // Only inode `i` changed, and it was written back.
  lemma WrittenBack(d: Disk, ino: seq<Inode>, e: Disk, jno: seq<Inode>, dino: seq<Inode>, i: nat)
    requires OthersKept(d, ino, e, jno, i) && i < |ino| && dino == ino[i := jno[i]]
    ensures dino == jno
  {
    hide Space, Table;
  }

  lemma SplicedTwice(c: seq<Byte>, off: nat, src: seq<Byte>, k: nat, n: nat, r: nat)
    requires off <= |c| && k + n <= |src| && r <= n
    ensures off + k <= |Spliced(c, off, Piece(src, 0, k))|
    ensures Spliced(Spliced(c, off, Piece(src, 0, k)), off + k, Piece(Piece(src, k, n), 0, r))
            == Spliced(c, off, Piece(src, 0, k + r))
  {
    assert Piece(Piece(src, k, n), 0, r) == src[k..k + r];
    assert Piece(src, 0, k) + src[k..k + r] == Piece(src, 0, k + r);
    SplicedOnto(c, off, Piece(src, 0, k), src[k..k + r]);
  }

  lemma SplicedOnto(c: seq<Byte>, off: nat, x: seq<Byte>, y: seq<Byte>)
    requires off <= |c|
    ensures off + |x| <= |Spliced(c, off, x)|
    ensures Spliced(Spliced(c, off, x), off + |x|, y) == Spliced(c, off, x + y)
  {
  }

  // What filewrite has done once `k` bytes are written.
  ghost predicate WroteFile(d: Disk, ino: seq<Inode>, f: Disk, jno: seq<Inode>, i: nat, off: nat, src: seq<Byte>,
                            k: nat)
  {
    && OthersKept(d, ino, f, jno, i) && i < |ino| && k <= |src|
    && ino[i].size <= MAXBYTES && jno[i].size <= MAXBYTES
    && if off <= ino[i].size
       then Contents(f, jno[i]) == Spliced(Contents(d, ino[i]), off, Piece(src, 0, k))
       else k == 0 && Contents(f, jno[i]) == Contents(d, ino[i])
  }

  lemma WroteFileBegins(d: Disk, ino: seq<Inode>, i: nat, off: nat, src: seq<Byte>)
    requires AllReadable(d, ino) && i < |ino| && ino[i].size <= MAXBYTES
    ensures WroteFile(d, ino, d, ino, i, off, src, 0)
  {
    hide Contents;
    var c := Contents(d, ino[i]);
    assert off <= |c| ==> Spliced(c, off, Piece(src, 0, 0)) == c;
  }

  lemma WroteFileReaches(d: Disk, ino: seq<Inode>, f: Disk, jno: seq<Inode>, i: nat, off: nat, src: seq<Byte>, k: nat)
    requires WroteFile(d, ino, f, jno, i, off, src, k) && off <= ino[i].size
    ensures off + k <= jno[i].size <= MAXBYTES
  {
    hide Space;
  }

  lemma WroteFileGoesOn(d: Disk, ino: seq<Inode>, e: Disk, jno: seq<Inode>, f: Disk, kno: seq<Inode>, i: nat, off: nat,
                        src: seq<Byte>, k: nat, n: nat, r: nat)
    requires WroteFile(d, ino, e, jno, i, off, src, k) && off <= ino[i].size && k + n <= |src| && r <= n
    requires OthersKept(e, jno, f, kno, i) && kno[i].size <= MAXBYTES && off + k <= jno[i].size
    requires Contents(f, kno[i]) == Spliced(Contents(e, jno[i]), off + k, Piece(Piece(src, k, n), 0, r))
    ensures WroteFile(d, ino, f, kno, i, off, src, k + r)
  {
    SplicedTwice(Contents(d, ino[i]), off, src, k, n, r);
    hide Contents, Piece, Spliced, OthersKept;
    OthersKeptTwice(d, ino, e, jno, f, kno, i);
    OthersKeptShape(d, ino, f, kno, i);
  }

  lemma OthersKeptShape(d: Disk, ino: seq<Inode>, f: Disk, jno: seq<Inode>, i: nat)
    requires OthersKept(d, ino, f, jno, i)
    ensures AllReadable(d, ino) && AllReadable(f, jno) && |jno| == |ino|
  {
  }

  // ---------- Reading ----------

  // How many bytes readi is to return.
  function ReadLen(size: nat, off: nat, n: nat): nat {
    if off > size || off + n >= WORD then 0 else if off + n > size then size - off else n
  }

  ghost predicate ReadSoFar(d: Disk, ip: Inode, off: nat, dst: seq<Byte>) {
    && Readable(d, ip) && off + |dst| <= ip.size <= MAXBYTES
    && dst == Piece(Contents(d, ip), off, |dst|)
  }

  // The bytes that readi copies out of a block are those of the file.
  lemma ReadPass(d: Disk, ino: seq<Inode>, e: Disk, jno: seq<Inode>, i: nat, off: nat, dst: seq<Byte>, m: nat)
    requires Extends(d, ino, e, jno, i) && ReadSoFar(d, ino[i], off, dst) && off + |dst| + m <= ino[i].size
    requires BlockNo(off + |dst|) < MAXFILE && InBlock(off + |dst|) + m <= BSIZE
    requires var a := Tables(e, jno)[i][SlotOf(BlockNo(off + |dst|))]; 0 != a < |e|
    ensures var a := Tables(e, jno)[i][SlotOf(BlockNo(off + |dst|))];
            ReadSoFar(d, ino[i], off, dst + Piece(e[a], InBlock(off + |dst|), m))
  {
    hide Tables, Table, Space, Contents, Piece, BlockNo, InBlock, SlotOf;
    var o, c := off + |dst|, Contents(d, ino[i]);
    PieceOfSpace(e, Tables(e, jno)[i], o, m);
    TableOf(d, ino, i);
    PieceOfContents(d, ino[i], o, m);
    PieceJoins(c, off, |dst|, m);
  }

  lemma TableOf(d: Disk, ino: seq<Inode>, i: nat)
    requires AllReadable(d, ino) && i < |ino|
    ensures Tables(d, ino)[i] == Table(d, ino[i])
  {
  }

  lemma PieceOfContents(d: Disk, ip: Inode, o: nat, m: nat)
    requires Readable(d, ip) && o + m <= ip.size <= MAXBYTES
    ensures Piece(Contents(d, ip), o, m) == Piece(Space(d, Table(d, ip)), o, m)
  {
    hide Space, Table;
  }

  lemma PieceJoins(c: seq<Byte>, o: nat, k: nat, m: nat)
    requires o + k + m <= |c|
    ensures Piece(c, o, k) + Piece(c, o + k, m) == Piece(c, o, k + m)
  {
  }

  lemma PieceOfSpace(d: Disk, t: seq<nat>, o: nat, m: nat)
    requires |t| == SLOTS && BlockNo(o) < MAXFILE && InBlock(o) + m <= BSIZE && o + m <= MAXBYTES
    requires 0 != t[SlotOf(BlockNo(o))] < |d|
    ensures Piece(Space(d, t), o, m) == Piece(d[t[SlotOf(BlockNo(o))]], InBlock(o), m)
  {
    forall j | o <= j < o + m
      ensures ByteAt(d, t, j) == d[t[SlotOf(BlockNo(o))]][InBlock(o) + (j - o)]
    {
      SameBlock(o, j - o);
    }
  }

  lemma SameBlock(o: nat, k: nat)
    requires InBlock(o) + k < BSIZE
    ensures (o + k) / BSIZE == BlockNo(o) && (o + k) % BSIZE == InBlock(o) + k
  {
  }

  lemma ReadBegins(d: Disk, ino: seq<Inode>, i: nat, off: nat)
    requires AllReadable(d, ino) && i < |ino| && off <= ino[i].size <= MAXBYTES
    ensures ReadSoFar(d, ino[i], off, []) && Extends(d, ino, d, ino, i)
  {
    ExtendsSelf(d, ino, i);
  }
}
