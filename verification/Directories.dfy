/**
 Directories of labo2/kernel/fs.c: a file of 16-byte entries as a map from names to inode
 numbers, and the splitting of paths.
 */
module Directories {
  import opened Blocks
  import opened Inodes
  import opened Writing
  import opened Holes
  import opened FileSystem
  import RedoLog

  const DIRSIZ: nat := 14
  const ENTRY: nat := 16
  const SHORT: nat := 65536

  // ---------- C strings ----------

  // *(p + i), where `p` may stop before its terminator.
  function At(p: seq<Byte>, i: nat): Byte {
    if i < |p| then p[i] else 0
  }

  // The bytes of `p` before the first NUL, at most `n`.
  function CStr(p: seq<Byte>, n: nat): (s: seq<Byte>)
    ensures |s| <= n
  {
    if n == 0 || At(p, 0) == 0 then [] else [p[0]] + CStr(p[1..], n - 1)
  }

  predicate NulFree(p: seq<Byte>) {
    forall i :: 0 <= i < |p| ==> p[i] != 0
  }

  lemma {:induction false} CStrFrom(p: seq<Byte>, n: nat, i: nat)
    requires i <= n && i <= |p| && NulFree(p[..i])
    ensures CStr(p, n) == p[..i] + CStr(p[i..], n - i)
  {
    if i == 0 {
      assert p[0..] == p;
    } else {
      assert p[..i][0] == p[0];
      assert p[1..][..i - 1] == p[..i][1..];
      CStrFrom(p[1..], n - 1, i - 1);
      assert p[1..][i - 1..] == p[i..];
      assert [p[0]] + p[1..][..i - 1] == p[..i];
    }
  }

  lemma CStrHead(p: seq<Byte>, n: nat)
    ensures CStr(p, n) == [] <==> n == 0 || At(p, 0) == 0
    ensures CStr(p, n) != [] ==> CStr(p, n)[0] == p[0]
  {
  }

  /** strncmp: zero exactly when the strings agree up to `n` bytes. */
  method Strncmp(p: seq<Byte>, q: seq<Byte>, n: nat) returns (r: int)
    ensures r == 0 <==> CStr(p, n) == CStr(q, n)
  {
    var i := 0;
    while i < n && At(p, i) != 0 && At(p, i) == At(q, i)
      invariant i <= n && i <= |p| && i <= |q|
      invariant p[..i] == q[..i] && NulFree(p[..i])
    {
      i := i + 1;
    }
    CStrFrom(p, n, i);
    CStrFrom(q, n, i);
    CStrHead(p[i..], n - i);
    CStrHead(q[i..], n - i);
    if i == n {
      return 0;
    }
    r := At(p, i) - At(q, i);
    assert r != 0 ==> CStr(p[i..], n - i) != CStr(q[i..], n - i);
    assert CStr(p, n)[i..] == CStr(p[i..], n - i) && CStr(q, n)[i..] == CStr(q[i..], n - i);
  }

  /** strncpy into `s` at `o`: the string, padded with NULs to `n` bytes. */
  method Strncpy(s: array<Byte>, o: nat, t: seq<Byte>, n: nat)
    requires o + n <= s.Length && NulFree(t)
    modifies s
    ensures forall j :: 0 <= j < n ==> s[o + j] == At(t, j)
    ensures forall j :: 0 <= j < s.Length && !(o <= j < o + n) ==> s[j] == old(s[j])
  {
    var k := 0;
    var more := true;
    while k < n && more
      invariant k <= n && (!more ==> |t| < k)
      invariant more ==> k <= |t|
      invariant forall j :: 0 <= j < k ==> s[o + j] == At(t, j)
      invariant forall j :: 0 <= j < s.Length && !(o <= j < o + n) ==> s[j] == old(s[j])
      decreases n - k
    {
      s[o + k] := At(t, k);
      more := At(t, k) != 0;
      k := k + 1;
    }
    while k < n
      invariant k <= n && (k < n ==> |t| < k)
      invariant forall j :: 0 <= j < k ==> s[o + j] == At(t, j)
      invariant forall j :: 0 <= j < s.Length && !(o <= j < o + n) ==> s[j] == old(s[j])
    {
      s[o + k] := 0;
      k := k + 1;
    }
  }

  // ---------- Entries ----------

  function EntryAt(c: seq<Byte>, k: nat): (e: seq<Byte>)
    requires ENTRY * k + ENTRY <= |c|
    ensures |e| == ENTRY
  {
    Piece(c, ENTRY * k, ENTRY)
  }

  // struct dirent
  function InumOf(e: seq<Byte>): (n: nat)
    requires |e| == ENTRY
    ensures n < SHORT
  {
    Short(e[0], e[1])
  }

  function Short(lo: int, hi: int): int {
    lo + 256 * hi
  }

  function NameOf(e: seq<Byte>): (s: seq<Byte>)
    requires |e| == ENTRY
  {
    CStr(e[2..], DIRSIZ)
  }

  // The name that `name` is compared as.
  function Key(name: seq<Byte>): (s: seq<Byte>) {
    CStr(name, DIRSIZ)
  }

  function Count(c: seq<Byte>): nat {
    |c| / ENTRY
  }

  predicate Live(c: seq<Byte>, k: nat)
    requires k < Count(c)
  {
    InumOf(EntryAt(c, k)) != 0
  }

  function NameAt(c: seq<Byte>, k: nat): seq<Byte>
    requires k < Count(c)
  {
    NameOf(EntryAt(c, k))
  }

  // The contents of a directory: whole entries, no live name twice.
  predicate Dir(c: seq<Byte>) {
    && |c| % ENTRY == 0
    && forall j, k :: 0 <= j < k < Count(c) && Live(c, j) && Live(c, k) ==> NameAt(c, j) != NameAt(c, k)
  }

  // The names in the first `n` entries.
  function ViewTo(c: seq<Byte>, n: nat): (v: map<seq<Byte>, nat>)
    requires n <= Count(c)
  {
    if n == 0 then map[]
    else if Live(c, n - 1) then ViewTo(c, n - 1)[NameAt(c, n - 1) := InumOf(EntryAt(c, n - 1))]
    else ViewTo(c, n - 1)
  }

  function View(c: seq<Byte>): map<seq<Byte>, nat> {
    ViewTo(c, Count(c))
  }

  ghost predicate Listed(c: seq<Byte>, n: nat, name: seq<Byte>)
    requires n <= Count(c)
  {
    exists k :: 0 <= k < n && Live(c, k) && NameAt(c, k) == name
  }

  // The map has the live entries and nothing else.
  lemma {:induction false} ViewIs(c: seq<Byte>, n: nat)
    requires Dir(c) && n <= Count(c)
    ensures forall name :: name in ViewTo(c, n) <==> Listed(c, n, name)
    ensures forall k :: 0 <= k < n && Live(c, k) ==>
      NameAt(c, k) in ViewTo(c, n) && ViewTo(c, n)[NameAt(c, k)] == InumOf(EntryAt(c, k))
  {
    hide NameAt, Live, EntryAt, InumOf;
    if n > 0 {
      ViewIs(c, n - 1);
      forall name ensures Listed(c, n, name) <==>
        Listed(c, n - 1, name) || (Live(c, n - 1) && NameAt(c, n - 1) == name) {
      }
    }
  }

  // ---------- dirlookup ----------

  datatype Lookup = Found(inum: nat, off: nat) | Missing | LookupPanic

  // What dirlookup has passed by.
  ghost predicate Passed(c: seq<Byte>, k: nat, name: seq<Byte>)
    requires k <= Count(c)
  {
    forall j :: 0 <= j < k && Live(c, j) ==> NameAt(c, j) != Key(name)
  }

  lemma NothingPassed(c: seq<Byte>, name: seq<Byte>)
    ensures Passed(c, 0, name)
  {
  }

  lemma PassedNext(c: seq<Byte>, k: nat, name: seq<Byte>)
    requires k < Count(c)
    ensures Live(c, k) <==> InumOf(EntryAt(c, k)) != 0
    ensures NameAt(c, k) == NameOf(EntryAt(c, k))
    ensures Passed(c, k, name) && (Live(c, k) ==> NameAt(c, k) != Key(name)) ==> Passed(c, k + 1, name)
  {
  }

  function EntryNo(off: nat): nat {
    off / ENTRY
  }

  lemma EntryNoOf(k: nat)
    ensures EntryNo(ENTRY * k) == k
  {
  }

  // What dirlookup is to find.
  ghost predicate LooksUp(c: seq<Byte>, name: seq<Byte>, r: Lookup) {
    match r
    case Found(inum, off) =>
      && Key(name) in View(c) && View(c)[Key(name)] == inum
      && off == ENTRY * EntryNo(off) && EntryNo(off) < Count(c) && Live(c, EntryNo(off))
        && NameAt(c, EntryNo(off)) == Key(name)
    case Missing => Key(name) !in View(c)
    case LookupPanic => true
  }

  lemma LookupFinds(c: seq<Byte>, k: nat, name: seq<Byte>)
    requires Dir(c) && k < Count(c) && Live(c, k) && NameAt(c, k) == Key(name)
    ensures LooksUp(c, name, Found(InumOf(EntryAt(c, k)), ENTRY * k))
  {
    hide ViewTo, Dir, NameAt, Live, EntryAt, Count, EntryNo, Key;
    ViewIs(c, Count(c));
    EntryNoOf(k);
  }

  lemma LookupMisses(c: seq<Byte>, name: seq<Byte>)
    requires Dir(c) && Passed(c, Count(c), name)
    ensures LooksUp(c, name, Missing)
  {
    hide ViewTo, Dir, NameAt, Live, Count, Key;
    ViewIs(c, Count(c));
  }

  lemma ExtendsContents(d: Disk, ino: seq<Inode>, f: Disk, jno: seq<Inode>, i: nat, j: nat)
    requires Extends(d, ino, f, jno, i) && j < |ino| && ino[j].size <= MAXBYTES
    ensures AllReadable(d, ino) && AllReadable(f, jno) && |jno| == |ino|
    ensures jno[j].size == ino[j].size && Contents(f, jno[j]) == Contents(d, ino[j])
    ensures OthersKept(d, ino, f, jno, i)
  {
    hide Space, Table;
    forall k | 0 <= k < |ino|
      ensures Space(f, Table(f, jno[k])) == Space(d, Table(d, ino[k]))
              && (k != i ==> Table(f, jno[k]) == Table(d, ino[k]))
    {
      assert Tables(f, jno)[k] == Table(f, jno[k]) && Tables(d, ino)[k] == Table(d, ino[k]);
    }
  }

  lemma CountOf(d: Disk, ip: Inode)
    requires Readable(d, ip) && ip.size <= MAXBYTES
    ensures |Contents(d, ip)| == ip.size
  {
  }

  // Reading entry `k` stays within the file.
  lemma EntryInside(d: Disk, ip: Inode, k: nat)
    requires Readable(d, ip) && ip.size <= MAXBYTES && k < Count(Contents(d, ip))
    ensures ENTRY * k < WORD && ReadLen(ip.size, ENTRY * k, ENTRY) == ENTRY
  {
    hide Contents;
  }

  lemma EntryRead(d: Disk, ip: Inode, k: nat, de: seq<Byte>)
    requires ReadSoFar(d, ip, ENTRY * k, de) && |de| == ENTRY
    ensures k < Count(Contents(d, ip)) && de == EntryAt(Contents(d, ip), k)
  {
    hide Piece;
    CountOf(d, ip);
  }

  // The loops of dirlookup and dirlink run over whole entries.
  lemma EntriesLeft(c: seq<Byte>, k: nat)
    requires Dir(c) && k <= Count(c)
    ensures ENTRY * k < |c| <==> k < Count(c)
  {
  }

  // Reading the directory up to byte `end` has filled its holes there, and none else.
  ghost predicate ReadTo(sb: Super, d: Disk, ino: seq<Inode>, f: Disk, jno: seq<Inode>, dp: nat, end: nat) {
    && AllReadable(d, ino) && AllReadable(f, jno) && dp < |ino| == |jno|
    && Filled(sb, d, Tables(d, ino)[dp], f, Tables(f, jno)[dp], 0, end)
  }

  // There are as many free blocks as the directory lacks up to byte `end`.
  ghost predicate CanReadTo(sb: Super, d: Disk, ino: seq<Inode>, dp: nat, end: nat)
    requires AllReadable(d, ino) && dp < |ino|
  {
    |Needed(Tables(d, ino)[dp], 0, end)| <= FreeBlocks(sb, d)
  }

  lemma ReadToStart(sb: Super, d: Disk, ino: seq<Inode>, dp: nat)
    requires AllReadable(d, ino) && dp < |ino|
    ensures ReadTo(sb, d, ino, d, ino, dp, 0)
  {
    hide Tables, FreeBlocks;
    FilledNothing(sb, d, Tables(d, ino)[dp], 0);
  }

  // One entry more was read, or was not.
  lemma ReadToNext(sb: Super, d: Disk, ino: seq<Inode>, e: Disk, jno: seq<Inode>, f: Disk, kno: seq<Inode>, dp: nat,
                   k: nat, n: nat)
    requires ReadTo(sb, d, ino, e, jno, dp, ENTRY * k) && ReadFills(sb, e, jno, f, kno, dp, ENTRY * k, ENTRY, n)
    ensures n == ENTRY <==> CanReadTo(sb, d, ino, dp, ENTRY * (k + 1))
    ensures n == ENTRY ==> ReadTo(sb, d, ino, f, kno, dp, ENTRY * (k + 1))
  {
    hide Tables, FreeBlocks, Filled, Stopped, Needed, AllMarked;
    var t, u := Tables(d, ino)[dp], Tables(e, jno)[dp];
    NeededParts(sb, d, t, e, u, 0, ENTRY * k, ENTRY * (k + 1));
    if n == ENTRY {
      FilledTwice(sb, d, t, e, u, f, Tables(f, kno)[dp], 0, ENTRY * k, ENTRY * (k + 1));
    }
  }

  // Less is easier to read.
  lemma CanReadLess(sb: Super, d: Disk, ino: seq<Inode>, dp: nat, end: nat, goal: nat)
    requires AllReadable(d, ino) && dp < |ino| && end <= goal && CanReadTo(sb, d, ino, dp, goal)
    ensures CanReadTo(sb, d, ino, dp, end)
  {
    hide Tables, FreeBlocks;
    NeededWithin(Tables(d, ino)[dp], 0, end, 0, goal);
  }

  // Where no file has a hole, all of the directory can be read.
  lemma CanReadWhole(sb: Super, d: Disk, ino: seq<Inode>, dp: nat, c: seq<Byte>, k: nat)
    requires AllReadable(d, ino) && dp < |ino| && ino[dp].size == |c| && k <= Count(c)
    ensures HoleFree(d, ino) ==> CanReadTo(sb, d, ino, dp, ENTRY * k)
  {
    hide Tables, FreeBlocks, Needed, HoleFree, AllReadable;
    if HoleFree(d, ino) {
      HoleFreeNeeds(d, ino, dp, 0, ENTRY * k);
    }
  }

  lemma WasRead(sb: Super, d: Disk, ino: seq<Inode>, f: Disk, jno: seq<Inode>, dp: nat, end: nat)
    requires ReadTo(sb, d, ino, f, jno, dp, end)
    ensures CanReadTo(sb, d, ino, dp, end)
  {
    hide Tables, FreeBlocks, Needed;
    FilledFits(sb, d, Tables(d, ino)[dp], f, Tables(f, jno)[dp], 0, end);
  }

  /** readi of entry `k`: all of it unless a hole cannot be filled. */
  method ReadEntry(fs: Fs, dp: nat, k: nat, ghost c: seq<Byte>) returns (de: seq<Byte>)
    requires fs.Valid() && dp < |fs.ino| && AllReadable(fs.d, fs.ino)
    requires c == Contents(fs.d, fs.ino[dp]) && k < Count(c)
    modifies fs`d, fs`ino, fs`owner, fs`logged
    ensures fs.Valid() && Extends(old(fs.d), old(fs.ino), fs.d, fs.ino, dp)
    ensures |de| == ENTRY ==> de == EntryAt(c, k)
    ensures |de| <= ENTRY && ReadFills(fs.sb, old(fs.d), old(fs.ino), fs.d, fs.ino, dp, ENTRY * k, ENTRY, |de|)
    ensures HoleFree(old(fs.d), old(fs.ino)) ==>
      Same(old(fs.d), old(fs.ino), old(fs.owner), fs.d, fs.ino, fs.owner) && fs.logged == old(fs.logged)
  {
    hide Good, Contents, Tables, AllMarked, Extends, ReadSoFar, EntryAt, ReadLen, Count, AllReadable, ReadFills, Needed;
    ghost var d0, ip0 := fs.d, fs.ino[dp];
    assert Readable(d0, ip0) by {
      hide Readable;
      ReadableOne(fs.d, fs.ino, dp);
    }
    EntryInside(d0, ip0, k);
    de := fs.Readi(dp, ENTRY * k, ENTRY);
    if |de| == ENTRY {
      EntryRead(d0, ip0, k, de);
    }
  }

  lemma ReadableOne(d: Disk, ino: seq<Inode>, i: nat)
    requires AllReadable(d, ino) && i < |ino|
    ensures Readable(d, ino[i])
  {
  }

  // How many entries dirlookup reads: up to the one of that name, or all.
  ghost function LookupStop(c: seq<Byte>, k: nat, name: seq<Byte>): (e: nat)
    requires k <= Count(c)
    ensures k <= e <= Count(c) && (k < Count(c) ==> k < e)
    decreases Count(c) - k
  {
    if k == Count(c) then k
    else if Live(c, k) && NameAt(c, k) == Key(name) then k + 1
    else LookupStop(c, k + 1, name)
  }

  // How many entries dirlink reads in search of a free one: up to that, or all.
  ghost function FreeStop(c: seq<Byte>, k: nat): (e: nat)
    requires k <= Count(c)
    ensures k <= e <= Count(c) && (k < Count(c) ==> k < e)
    decreases Count(c) - k
  {
    if k == Count(c) then k
    else if !Live(c, k) then k + 1
    else FreeStop(c, k + 1)
  }

  /**
   dirlookup: the inode number that the directory binds to the name, and where.  It panics
   exactly when the entries that it must read lie on more missing blocks than are free.
   */
  method DirLookup(fs: Fs, dp: nat, name: seq<Byte>, ghost c: seq<Byte>) returns (r: Lookup)
    requires fs.Valid() && dp < |fs.ino| && AllReadable(fs.d, fs.ino)
    requires c == Contents(fs.d, fs.ino[dp]) && Dir(c) && NulFree(name)
    modifies fs`d, fs`ino, fs`owner, fs`logged
    ensures fs.Valid() && Extends(old(fs.d), old(fs.ino), fs.d, fs.ino, dp)
    ensures !r.LookupPanic? ==> LooksUp(c, name, r)
    ensures r.LookupPanic? <==> !CanReadTo(fs.sb, old(fs.d), old(fs.ino), dp, ENTRY * LookupStop(c, 0, name))
    ensures r.Missing? ==> ReadTo(fs.sb, old(fs.d), old(fs.ino), fs.d, fs.ino, dp, ENTRY * Count(c))
    ensures HoleFree(old(fs.d), old(fs.ino)) ==>
      && !r.LookupPanic?
      && Same(old(fs.d), old(fs.ino), old(fs.owner), fs.d, fs.ino, fs.owner) && fs.logged == old(fs.logged)
  {
    hide Good, Contents, Tables, Extends, Dir, LooksUp, View, EntryAt, NameOf, InumOf, Key, AllReadable, Readable,
         Count, OthersKept, Passed, Live, NameAt, ReadTo, CanReadTo, ReadFills, LookupStop, HoleFree;
    ghost var d0, ino0 := fs.d, fs.ino;
    CanReadWhole(fs.sb, d0, ino0, dp, c, LookupStop(c, 0, name));
    ExtendsSelf(d0, ino0, dp);
    ReadableOne(d0, ino0, dp);
    CountOf(d0, ino0[dp]);
    ReadToStart(fs.sb, d0, ino0, dp);
    var off, k := 0, 0;
    EntriesLeft(c, 0);
    NothingPassed(c, name);
    ghost var stop := LookupStop(c, 0, name);
    while off < fs.ino[dp].size
      invariant fs.Valid() && Extends(d0, ino0, fs.d, fs.ino, dp) && |fs.ino| == |ino0|
      invariant AllReadable(fs.d, fs.ino) && Readable(fs.d, fs.ino[dp])
      invariant fs.ino[dp].size == |c| && Contents(fs.d, fs.ino[dp]) == c
      invariant off == ENTRY * k && k <= Count(c) && Passed(c, k, name) && (off < |c| <==> k < Count(c))
      invariant ReadTo(fs.sb, d0, ino0, fs.d, fs.ino, dp, ENTRY * k) && stop == LookupStop(c, k, name)
      invariant HoleFree(d0, ino0) ==>
        Same(d0, ino0, old(fs.owner), fs.d, fs.ino, fs.owner) && fs.logged == old(fs.logged)
      decreases Count(c) - k
    {
      ghost var d1, ino1 := fs.d, fs.ino;
      var de := ReadEntry(fs, dp, k, c);
      ExtendsTwice(d0, ino0, d1, ino1, fs.d, fs.ino, dp);
      ExtendsContents(d0, ino0, fs.d, fs.ino, dp, dp);
      ReadableOne(fs.d, fs.ino, dp);
      ReadToNext(fs.sb, d0, ino0, d1, ino1, fs.d, fs.ino, dp, k, |de|);
      StopNext(c, k, name);
      if |de| != ENTRY {
        PanicsHere(fs.sb, d0, ino0, dp, k, stop);
        return LookupPanic;
      }
      PassedNext(c, k, name);
      if InumOf(de) != 0 {
        var same := Strncmp(name, de[2..], DIRSIZ);
        NameIs(name, de);
        if same == 0 {
          LookupFinds(c, k, name);
          return Found(InumOf(de), off);
        }
      }
      k := k + 1;
      off := off + ENTRY;
      EntriesLeft(c, k);
    }
    LookupMisses(c, name);
    StopEnds(c, name);
    WasRead(fs.sb, d0, ino0, fs.d, fs.ino, dp, ENTRY * k);
    r := Missing;
  }

  lemma StopNext(c: seq<Byte>, k: nat, name: seq<Byte>)
    requires k < Count(c)
    ensures k < LookupStop(c, k, name)
    ensures LookupStop(c, k, name) ==
      if Live(c, k) && NameAt(c, k) == Key(name) then k + 1 else LookupStop(c, k + 1, name)
    ensures k < FreeStop(c, k)
    ensures FreeStop(c, k) == if !Live(c, k) then k + 1 else FreeStop(c, k + 1)
  {
  }

  lemma StopEnds(c: seq<Byte>, name: seq<Byte>)
    ensures LookupStop(c, Count(c), name) == FreeStop(c, Count(c)) == Count(c)
  {
  }

  // A short read of entry `k` is one of the entries up to `stop`.
  lemma PanicsHere(sb: Super, d: Disk, ino: seq<Inode>, dp: nat, k: nat, stop: nat)
    requires AllReadable(d, ino) && dp < |ino| && k < stop && !CanReadTo(sb, d, ino, dp, ENTRY * (k + 1))
    ensures !CanReadTo(sb, d, ino, dp, ENTRY * stop)
  {
    hide CanReadTo;
    if CanReadTo(sb, d, ino, dp, ENTRY * stop) {
      CanReadLess(sb, d, ino, dp, ENTRY * (k + 1), ENTRY * stop);
    }
  }

  lemma NameIs(name: seq<Byte>, de: seq<Byte>)
    requires |de| == ENTRY
    ensures CStr(name, DIRSIZ) == CStr(de[2..], DIRSIZ) <==> NameOf(de) == Key(name)
  {
  }

  // ---------- dirlink ----------

  datatype Link = Returned(r: int) | LinkPanic

  lemma {:induction false} CStrAgree(p: seq<Byte>, q: seq<Byte>, n: nat)
    requires forall j :: 0 <= j < n ==> At(p, j) == At(q, j)
    ensures CStr(p, n) == CStr(q, n)
  {
    if n > 0 && At(p, 0) != 0 {
      assert At(p, 0) == At(q, 0);
      forall j | 0 <= j < n - 1 ensures At(p[1..], j) == At(q[1..], j) {
        assert At(p[1..], j) == At(p, j + 1) && At(q[1..], j) == At(q, j + 1);
      }
      CStrAgree(p[1..], q[1..], n - 1);
    }
  }

  // The entry that dirlink writes.
  lemma EntryFilled(de: seq<Byte>, name: seq<Byte>, inum: nat)
    requires |de| == ENTRY && de[0] == inum % 256 && de[1] == inum / 256 % 256
    requires forall j :: 0 <= j < DIRSIZ ==> de[2 + j] == At(name, j)
    ensures NameOf(de) == Key(name) && InumOf(de) == inum % SHORT
  {
    forall j | 0 <= j < DIRSIZ ensures At(de[2..], j) == At(name, j) {
      assert de[2..][j] == de[2 + j];
    }
    CStrAgree(de[2..], name, DIRSIZ);
  }

  lemma NeverStraddles(k: nat, r: nat)
    requires 0 < r < ENTRY
    ensures !Aligned(ENTRY * k + r)
  {
  }

  lemma SplicedEntry(c: seq<Byte>, k: nat, e: seq<Byte>)
    requires |c| % ENTRY == 0 && k <= Count(c) && |e| == ENTRY
    ensures ENTRY * k <= |c|
    ensures var w := Spliced(c, ENTRY * k, e);
            && |w| % ENTRY == 0 && Count(w) == (if k == Count(c) then Count(c) + 1 else Count(c))
            && EntryAt(w, k) == e
            && forall j :: 0 <= j < Count(c) && j != k ==> EntryAt(w, j) == EntryAt(c, j)
  {
    var w := Spliced(c, ENTRY * k, e);
    assert |w| == if k == Count(c) then |c| + ENTRY else |c|;
    forall j | 0 <= j < Count(c) && j != k ensures EntryAt(w, j) == EntryAt(c, j) {
      assert forall b :: ENTRY * j <= b < ENTRY * j + ENTRY ==> w[b] == c[b];
    }
  }

  // A new binding in a free slot, or in a new one at the end.
  lemma LinkView(c: seq<Byte>, w: seq<Byte>, k: nat, e: seq<Byte>)
    requires Dir(c) && k <= Count(c) && (k < Count(c) ==> !Live(c, k))
    requires |e| == ENTRY && (InumOf(e) != 0 ==> NameOf(e) !in View(c))
    requires |w| % ENTRY == 0 && Count(w) == if k == Count(c) then Count(c) + 1 else Count(c)
    requires EntryAt(w, k) == e && forall j :: 0 <= j < Count(c) && j != k ==> EntryAt(w, j) == EntryAt(c, j)
    ensures Dir(w)
    ensures View(w) == if InumOf(e) == 0 then View(c) else View(c)[NameOf(e) := InumOf(e)]
  {
    hide EntryAt, InumOf, NameOf, Count, ViewTo;
    ViewIs(c, Count(c));
    forall j | InumOf(e) != 0 && 0 <= j < Count(c) && Live(c, j) ensures NameAt(c, j) != NameOf(e) {
      assert Listed(c, Count(c), NameAt(c, j));
    }
    assert Dir(w) by {
      forall i, j | 0 <= i < j < Count(w) && Live(w, i) && Live(w, j) ensures NameAt(w, i) != NameAt(w, j) {
        assert i != k ==> Live(c, i) && NameAt(c, i) == NameAt(w, i);
        assert j != k ==> Live(c, j) && NameAt(c, j) == NameAt(w, j);
      }
    }
    ViewIs(w, Count(w));
    SameListed(c, w, k, e);
    var v := if InumOf(e) == 0 then View(c) else View(c)[NameOf(e) := InumOf(e)];
    forall name | name in v ensures name in View(w) && View(w)[name] == v[name] {
      if InumOf(e) != 0 && name == NameOf(e) {
        assert Live(w, k);
      } else {
        assert Listed(c, Count(c), name);
        var j :| 0 <= j < Count(c) && Live(c, j) && NameAt(c, j) == name;
        assert Live(w, j) && NameAt(w, j) == name;
      }
    }
    assert forall name :: name in View(w) <==> name in v;
  }

  lemma SameListed(c: seq<Byte>, w: seq<Byte>, k: nat, e: seq<Byte>)
    requires k <= Count(c) && (k < Count(c) ==> !Live(c, k)) && |e| == ENTRY
    requires Count(w) == if k == Count(c) then Count(c) + 1 else Count(c)
    requires EntryAt(w, k) == e && forall j :: 0 <= j < Count(c) && j != k ==> EntryAt(w, j) == EntryAt(c, j)
    ensures forall name :: Listed(w, Count(w), name) <==>
      Listed(c, Count(c), name) || (InumOf(e) != 0 && NameOf(e) == name)
  {
    hide EntryAt, InumOf, NameOf, Count;
    forall name
      ensures Listed(w, Count(w), name) <==> Listed(c, Count(c), name) || (InumOf(e) != 0 && NameOf(e) == name)
    {
      if Listed(w, Count(w), name) {
        var j :| 0 <= j < Count(w) && Live(w, j) && NameAt(w, j) == name;
        assert j != k ==> Live(c, j) && NameAt(c, j) == name;
      }
      if Listed(c, Count(c), name) {
        var j :| 0 <= j < Count(c) && Live(c, j) && NameAt(c, j) == name;
        assert Live(w, j) && NameAt(w, j) == name;
      }
      if InumOf(e) != 0 && NameOf(e) == name {
        assert Live(w, k) && NameAt(w, k) == name;
      }
    }
  }

  /** The first free entry of the directory, or the one past its end. */
  method FindSlot(fs: Fs, dp: nat, ghost c: seq<Byte>) returns (panics: bool, off: nat, ghost k: nat)
    requires fs.Valid() && dp < |fs.ino| && AllReadable(fs.d, fs.ino)
    requires c == Contents(fs.d, fs.ino[dp]) && Dir(c)
    modifies fs`d, fs`ino, fs`owner, fs`logged
    ensures fs.Valid() && Extends(old(fs.d), old(fs.ino), fs.d, fs.ino, dp)
    ensures !panics ==> off == ENTRY * k && k <= Count(c) && (k < Count(c) ==> !Live(c, k)) && AllLive(c, k)
    ensures panics <==> !CanReadTo(fs.sb, old(fs.d), old(fs.ino), dp, ENTRY * FreeStop(c, 0))
    ensures !panics ==> ReadTo(fs.sb, old(fs.d), old(fs.ino), fs.d, fs.ino, dp, ENTRY * FreeStop(c, 0))
    ensures HoleFree(old(fs.d), old(fs.ino)) ==>
      Same(old(fs.d), old(fs.ino), old(fs.owner), fs.d, fs.ino, fs.owner) && fs.logged == old(fs.logged)
  {
    hide Good, Contents, Tables, Extends, Dir, EntryAt, NameOf, InumOf, AllReadable, Readable, Count, OthersKept, Live,
         ReadTo, CanReadTo, ReadFills, FreeStop, AllLive, HoleFree, Fs.Valid;
    ValidParts(fs);
    ghost var d0, ino0 := fs.d, fs.ino;
    ExtendsSelf(d0, ino0, dp);
    ReadableOne(d0, ino0, dp);
    CountOf(d0, ino0[dp]);
    ReadToStart(fs.sb, d0, ino0, dp);
    off, k, panics := 0, 0, false;
    EntriesLeft(c, 0);
    LiveNone(c);
    ghost var stop := FreeStop(c, 0);
    while off < fs.ino[dp].size
      invariant fs.Valid() && Extends(d0, ino0, fs.d, fs.ino, dp) && |fs.ino| == |ino0|
      invariant AllReadable(fs.d, fs.ino) && Readable(fs.d, fs.ino[dp])
      invariant fs.ino[dp].size == |c| && Contents(fs.d, fs.ino[dp]) == c
      invariant off == ENTRY * k && k <= Count(c) && (off < |c| <==> k < Count(c)) && AllLive(c, k)
      invariant ReadTo(fs.sb, d0, ino0, fs.d, fs.ino, dp, ENTRY * k) && stop == FreeStop(c, k)
      invariant HoleFree(d0, ino0) ==>
        Same(d0, ino0, old(fs.owner), fs.d, fs.ino, fs.owner) && fs.logged == old(fs.logged)
      decreases Count(c) - k
    {
      ghost var d1, ino1 := fs.d, fs.ino;
      var de := ReadEntry(fs, dp, off / ENTRY, c);
      ExtendsTwice(d0, ino0, d1, ino1, fs.d, fs.ino, dp);
      ExtendsContents(d0, ino0, fs.d, fs.ino, dp, dp);
      ReadableOne(fs.d, fs.ino, dp);
      ReadToNext(fs.sb, d0, ino0, d1, ino1, fs.d, fs.ino, dp, k, |de|);
      StopNext(c, k, []);
      if |de| != ENTRY {
        PanicsHere(fs.sb, d0, ino0, dp, k, stop);
        panics := true;
        return;
      }
      EntryLive(c, k);
      if InumOf(de) == 0 {
        return;
      }
      LiveNext(c, k);
      k := k + 1;
      off := off + ENTRY;
      EntriesLeft(c, k);
    }
    StopEnds(c, []);
    WasRead(fs.sb, d0, ino0, fs.d, fs.ino, dp, ENTRY * k);
  }

  // The first `k` entries are in use.
  ghost predicate AllLive(c: seq<Byte>, k: nat)
    requires k <= Count(c)
  {
    forall j :: 0 <= j < k ==> Live(c, j)
  }

  lemma LiveNone(c: seq<Byte>)
    ensures AllLive(c, 0)
  {
  }

  lemma LiveNext(c: seq<Byte>, k: nat)
    requires k < Count(c) && AllLive(c, k) && Live(c, k)
    ensures AllLive(c, k + 1)
  {
  }

  lemma EntryLive(c: seq<Byte>, k: nat)
    requires k < Count(c)
    ensures Live(c, k) <==> InumOf(EntryAt(c, k)) != 0
  {
  }

  // What dirlink makes of the directory `c`.
  ghost predicate Links(c: seq<Byte>, w: seq<Byte>, name: seq<Byte>, inum: nat, r: int) {
    && Dir(w)
    && (r == 0 || r == -1)
    && (r == -1 ==> w == c)
    && (r == 0 ==> Key(name) !in View(c)
                   && View(w) == if inum % SHORT == 0 then View(c) else View(c)[Key(name) := inum % SHORT])
  }

  lemma LinkDone(c: seq<Byte>, k: nat, de: seq<Byte>, name: seq<Byte>, inum: nat)
    requires Dir(c) && k <= Count(c) && (k < Count(c) ==> !Live(c, k)) && Key(name) !in View(c)
    requires |de| == ENTRY && NameOf(de) == Key(name) && InumOf(de) == inum % SHORT
    ensures ENTRY * k <= |c| && Links(c, Spliced(c, ENTRY * k, de), name, inum, 0)
  {
    SplicedEntry(c, k, de);
    hide EntryAt, InumOf, NameOf, ViewTo, Live, Count, Spliced, Key;
    assert |c| % ENTRY == 0;
    hide Dir, View;
    LinkView(c, Spliced(c, ENTRY * k, de), k, de);
  }

  lemma LinkUnchanged(c: seq<Byte>, name: seq<Byte>, inum: nat)
    requires Dir(c)
    ensures Links(c, c, name, inum, -1)
  {
  }

  lemma SplicedNothing(c: seq<Byte>, off: nat, src: seq<Byte>)
    requires off <= |c|
    ensures Spliced(c, off, Piece(src, 0, 0)) == c
  {
  }

  lemma PieceAll(src: seq<Byte>)
    ensures Piece(src, 0, |src|) == src
  {
  }

  lemma LinkOffset(c: seq<Byte>, k: nat)
    requires k <= Count(c)
    ensures ENTRY * k <= |c|
  {
  }

  lemma OthersKeptOf(d: Disk, ino: seq<Inode>, f: Disk, jno: seq<Inode>, i: nat)
    requires Extends(d, ino, f, jno, i) && i < |ino| && ino[i].size <= MAXBYTES
    ensures OthersKept(d, ino, f, jno, i)
  {
    ExtendsContents(d, ino, f, jno, i, i);
  }

  // How far a directory with one entry more reaches: a free entry is used again.
  ghost function LinkEnd(c: seq<Byte>): nat {
    if AllLive(c, Count(c)) then |c| + ENTRY else |c|
  }

  lemma LinkEndIs(c: seq<Byte>, k: nat)
    requires Dir(c) && k <= Count(c) && AllLive(c, k) && (k < Count(c) ==> !Live(c, k))
    ensures |c| == ENTRY * Count(c)
    ensures LinkEnd(c) == if k == Count(c) then |c| + ENTRY else |c|
    ensures ENTRY * k + ENTRY <= LinkEnd(c)
  {
    hide Live;
  }

  // After a whole search nothing is left to be filled.
  lemma SearchedAll(sb: Super, d: Disk, ino: seq<Inode>, f: Disk, jno: seq<Inode>, dp: nat, c: seq<Byte>)
    requires ReadTo(sb, d, ino, f, jno, dp, ENTRY * Count(c))
    ensures CanReadTo(sb, d, ino, dp, ENTRY * Count(c))
    ensures CanReadTo(sb, f, jno, dp, ENTRY * FreeStop(c, 0))
  {
    hide Tables, FreeBlocks, Needed, Filled, Count;
    FilledFits(sb, d, Tables(d, ino)[dp], f, Tables(f, jno)[dp], 0, ENTRY * Count(c));
    NeededWithin(Tables(f, jno)[dp], 0, ENTRY * FreeStop(c, 0), 0, ENTRY * Count(c));
  }

  lemma ReadAgain(sb: Super, d: Disk, ino: seq<Inode>, e: Disk, jno: seq<Inode>, f: Disk, kno: seq<Inode>, dp: nat,
                  end: nat, mid: nat)
    requires ReadTo(sb, d, ino, e, jno, dp, end) && ReadTo(sb, e, jno, f, kno, dp, mid) && mid <= end
    ensures ReadTo(sb, d, ino, f, kno, dp, end)
  {
    hide Tables, FreeBlocks, Needed, Filled;
    FilledAgain(sb, d, Tables(d, ino)[dp], e, Tables(e, jno)[dp], f, Tables(f, kno)[dp], 0, mid, end);
  }

  lemma PanicNoLink(sb: Super, d: Disk, ino: seq<Inode>, dp: nat, c: seq<Byte>, name: seq<Byte>)
    requires AllReadable(d, ino) && dp < |ino| && !CanReadTo(sb, d, ino, dp, ENTRY * LookupStop(c, 0, name))
    ensures !CanReadTo(sb, d, ino, dp, LinkEnd(c))
  {
    hide CanReadTo, LookupStop;
    LinkOffset(c, Count(c));
    if CanReadTo(sb, d, ino, dp, LinkEnd(c)) {
      CanReadLess(sb, d, ino, dp, ENTRY * LookupStop(c, 0, name), LinkEnd(c));
    }
  }

  // There is room for the entry if and only if there is room for all up to it.
  lemma RoomForEntry(sb: Super, d: Disk, ino: seq<Inode>, f: Disk, jno: seq<Inode>, dp: nat, c: seq<Byte>, k: nat)
    requires ReadTo(sb, d, ino, f, jno, dp, |c|) && Dir(c)
    requires k <= Count(c) && AllLive(c, k) && (k < Count(c) ==> !Live(c, k))
    ensures |Needed(Tables(f, jno)[dp], ENTRY * k, ENTRY * k + ENTRY)| <= FreeBlocks(sb, f) <==>
      CanReadTo(sb, d, ino, dp, LinkEnd(c))
  {
    LinkEndIs(c, k);
    hide Tables, FreeBlocks, Needed, Filled, Count, Dir, Live, AllLive, LinkEnd;
    var t, u := Tables(d, ino)[dp], Tables(f, jno)[dp];
    if k == Count(c) {
      NeededParts(sb, d, t, f, u, 0, |c|, |c| + ENTRY);
    } else {
      FilledFits(sb, d, t, f, u, 0, |c|);
      NeededWithin(u, ENTRY * k, ENTRY * k + ENTRY, 0, |c|);
    }
  }

  /**
   dirlink: one binding more, or -1 and the same directory.  It succeeds exactly for a new
   name when the directory stays within a file's size and the blocks that it lacks up to its
   new end are free.  The entry never straddles two blocks, so writei writes it whole or not
   at all.  It panics exactly when dirlookup does, before it has written anything;
   never where no file has a hole, and then it stays within the log budget of an operation.
   */
  method DirLink(fs: Fs, dp: nat, name: seq<Byte>, inum: nat, ghost c: seq<Byte>) returns (l: Link)
    requires fs.Valid() && dp < |fs.ino| && AllReadable(fs.d, fs.ino)
    requires c == Contents(fs.d, fs.ino[dp]) && Dir(c) && NulFree(name)
    modifies fs`d, fs`ino, fs`dino, fs`owner, fs`logged
    ensures fs.Valid() && AllReadable(fs.d, fs.ino)
    ensures OthersKept(old(fs.d), old(fs.ino), fs.d, fs.ino, dp)
    ensures l.LinkPanic? ==> Contents(fs.d, fs.ino[dp]) == c
    ensures l.LinkPanic? <==> !CanReadTo(fs.sb, old(fs.d), old(fs.ino), dp, ENTRY * LookupStop(c, 0, name))
    ensures l.Returned? ==> Links(c, Contents(fs.d, fs.ino[dp]), name, inum, l.r)
    ensures l == Returned(0) <==>
      && Key(name) !in View(c) && LinkEnd(c) <= MAXBYTES
      && CanReadTo(fs.sb, old(fs.d), old(fs.ino), dp, LinkEnd(c))
    ensures HoleFree(old(fs.d), old(fs.ino)) ==>
      && !l.LinkPanic? && HoleFree(fs.d, fs.ino)
      && |fs.logged - old(fs.logged)| <= RedoLog.MAXOPBLOCKS
      && (old(fs.dino) == old(fs.ino) ==> fs.dino == fs.ino)
  {
    hide Good, Contents, Tables, NoHoles, AllMarked, Extends, Dir, LooksUp, View, NameOf, InumOf, Key, AllReadable,
         Readable, HoleFree, Fs.Valid, Count, OthersKept, Live, Links, Spliced, Aligned, EntryAt, Piece, ReadTo,
           CanReadTo,
         LinkEnd, AllLive, LookupStop, FreeStop;
    ghost var d0, ino0 := fs.d, fs.ino;
    ValidParts(fs);
    ReadableOne(d0, ino0, dp);
    CountOf(d0, ino0[dp]);
    var r := DirLookup(fs, dp, name, c);
    ghost var d1, ino1 := fs.d, fs.ino;
    ExtendsContents(d0, ino0, d1, ino1, dp, dp);
    ReadableOne(d1, ino1, dp);
    LookupMeans(c, name, r);
    if r.LookupPanic? {
      PanicNoLink(fs.sb, d0, ino0, dp, c, name);
      return LinkPanic;
    }
    if r.Found? {
      LinkUnchanged(c, name, inum);
      return Returned(-1);
    }
    LinkOffset(c, Count(c));
    SearchedAll(fs.sb, d0, ino0, d1, ino1, dp, c);
    var panics, off;
    ghost var k;
    panics, off, k := FindSlot(fs, dp, c);
    assert !panics;
    ghost var d2, ino2 := fs.d, fs.ino;
    ExtendsContents(d1, ino1, d2, ino2, dp, dp);
    ReadAgain(fs.sb, d0, ino0, d1, ino1, d2, ino2, dp, ENTRY * Count(c), ENTRY * FreeStop(c, 0));
    ExtendsTwice(d0, ino0, d1, ino1, d2, ino2, dp);
    OthersKeptOf(d0, ino0, d2, ino2, dp);
    ReadableOne(d2, ino2, dp);
    LinkEndIs(c, k);
    RoomForEntry(fs.sb, d0, ino0, d2, ino2, dp, c, k);
    var de := MakeEntry(name, inum);
    LinkOffset(c, k);
    ghost var l0 := fs.logged;
    var n := fs.Writei(dp, de, off);
    ValidParts(fs);
    if HoleFree(d0, ino0) {
      HoleFreeFile(d2, ino2, dp);
      assert fs.logged - old(fs.logged) == fs.logged - l0;
    }
    if n >= 0 && old(fs.dino) == ino2 {
      WrittenBack(d2, ino2, fs.d, fs.ino, fs.dino, dp);
    }
    ReadableOne(fs.d, fs.ino, dp);
    if n != ENTRY {
      if n == -1 {
        LinkUnchanged(c, name, inum);
        return Returned(-1);
      }
      if n > 0 {
        NeverStraddles(k, n);
      }
      SplicedNothing(c, off, de);
      LinkUnchanged(c, name, inum);
      OthersKeptTwice(d0, ino0, d2, ino2, fs.d, fs.ino, dp);
      return Returned(-1);
    }
    OthersKeptTwice(d0, ino0, d2, ino2, fs.d, fs.ino, dp);
    PieceAll(de);
    LinkDone(c, k, de, name, inum);
    l := Returned(0);
  }

  lemma LookupMeans(c: seq<Byte>, name: seq<Byte>, r: Lookup)
    requires LooksUp(c, name, r)
    ensures r.Found? ==> Key(name) in View(c)
    ensures r.Missing? ==> Key(name) !in View(c)
  {
  }

  // strncpy(de.name, name, DIRSIZ); de.inum = inum;
  method MakeEntry(name: seq<Byte>, inum: nat) returns (e: seq<Byte>)
    requires NulFree(name)
    ensures |e| == ENTRY && NameOf(e) == Key(name) && InumOf(e) == inum % SHORT
  {
    hide NameOf, Key, InumOf;
    var de := new Byte[ENTRY];
    Strncpy(de, 2, name, DIRSIZ);
    de[0] := inum % 256;
    de[1] := inum / 256 % 256;
    e := de[..];
    EntryFilled(e, name, inum);
  }

  // ---------- skipelem ----------

  const SLASH: Byte := 47

  // The elements of a path: its non-empty pieces between slashes, cut to 14 bytes.
  function Elements(path: seq<Byte>): (names: seq<seq<Byte>>)
    decreases |path|
  {
    if path == [] then []
    else if path[0] == SLASH then Elements(path[1..])
    else
      var n := ElementLen(path);
      [if n < DIRSIZ then path[..n] else path[..DIRSIZ]] + Elements(path[n..])
  }

  // How long the element is that the path begins with.
  function ElementLen(path: seq<Byte>): (n: nat)
    ensures n <= |path|
    ensures path != [] && path[0] != SLASH ==> n > 0
    ensures n < |path| ==> path[n] == SLASH
    ensures forall i :: 0 <= i < n ==> path[i] != SLASH
  {
    if path == [] || path[0] == SLASH then 0 else 1 + ElementLen(path[1..])
  }

  lemma {:induction false} ElementLenIs(path: seq<Byte>, n: nat)
    requires n <= |path| && (forall i :: 0 <= i < n ==> path[i] != SLASH) && (n < |path| ==> path[n] == SLASH)
    ensures ElementLen(path) == n
  {
    if n > 0 {
      ElementLenIs(path[1..], n - 1);
    }
  }

  lemma {:induction false} SkipSlashes(path: seq<Byte>, n: nat)
    requires n <= |path| && forall i :: 0 <= i < n ==> path[i] == SLASH
    ensures Elements(path) == Elements(path[n..])
  {
    if n > 0 {
      SkipSlashes(path[1..], n - 1);
      assert path[1..][n - 1..] == path[n..];
    } else {
      assert path[0..] == path;
    }
  }

  // while(path[p] is a slash) p++
  method SkipSlash(path: seq<Byte>, from: nat) returns (p: nat)
    requires from <= |path| && NulFree(path)
    ensures from <= p <= |path| && At(path, p) != SLASH
    ensures Elements(path[p..]) == Elements(path[from..])
  {
    p := from;
    while At(path, p) == SLASH
      invariant from <= p <= |path| && forall i :: from <= i < p ==> path[i] == SLASH
      decreases |path| - p
    {
      p := p + 1;
    }
    SkipSlashes(path[from..], p - from);
    assert path[from..][p - from..] == path[p..];
  }

  /**
   skipelem: the next element of `path` from byte `from` on goes into `name`, and `next` is
   where the one after it starts; -1 when there is none.
   */
  method SkipElem(path: seq<Byte>, from: nat, name: array<Byte>) returns (next: int)
    requires from <= |path| && NulFree(path) && name.Length == DIRSIZ
    modifies name
    ensures next == -1 <==> Elements(path[from..]) == []
    ensures next != -1 ==>
      && from < next <= |path| && At(path, next) != SLASH
      && Elements(path[from..]) == [CStr(name[..], DIRSIZ)] + Elements(path[next..])
  {
    var s := SkipSlash(path, from);
    if At(path, s) == 0 {
      assert path[s..] == [];
      return -1;
    }
    var p := s;
    while At(path, p) != SLASH && At(path, p) != 0
      invariant s <= p <= |path| && forall i :: s <= i < p ==> path[i] != SLASH
      decreases |path| - p
    {
      p := p + 1;
    }
    var len := p - s;
    ElementLenIs(path[s..], len);
    assert path[s..][..len] == path[s..p] && path[s..][len..] == path[p..];
    CopyElem(path, s, len, name);
    next := SkipSlash(path, p);
  }

  // The copying branch of skipelem.
  method CopyElem(path: seq<Byte>, s: nat, len: nat, name: array<Byte>)
    requires s + len <= |path| && NulFree(path) && name.Length == DIRSIZ
    modifies name
    ensures CStr(name[..], DIRSIZ) == if len < DIRSIZ then path[s..][..len] else path[s..][..DIRSIZ]
  {
    if len >= DIRSIZ {
      for i := 0 to DIRSIZ
        invariant forall j :: 0 <= j < i ==> name[j] == path[s + j]
      {
        name[i] := path[s + i];
      }
      CStrFrom(name[..], DIRSIZ, DIRSIZ);
      CStrHead(name[..][DIRSIZ..], 0);
    } else {
      for i := 0 to len
        invariant forall j :: 0 <= j < i ==> name[j] == path[s + j]
      {
        name[i] := path[s + i];
      }
      name[len] := 0;
      CStrFrom(name[..], DIRSIZ, len);
      CStrHead(name[..][len..], DIRSIZ - len);
    }
  }

  /** namex's loop over a path: the names it looks up, in order. */
  method Walk(path: seq<Byte>) returns (names: seq<seq<Byte>>)
    requires NulFree(path)
    ensures names == Elements(path)
  {
    hide Elements, CStr;
    var name := new Byte[DIRSIZ];
    names := [];
    var p: int := 0;
    assert path[0..] == path;
    while p != -1
      invariant -1 <= p <= |path|
      invariant p != -1 ==> names + Elements(path[p..]) == Elements(path)
      invariant p == -1 ==> names == Elements(path)
      decreases if p == -1 then 0 else |path| - p + 1
    {
      ghost var q := p;
      p := SkipElem(path, p, name);
      if p != -1 {
        names := names + [CStr(name[..], DIRSIZ)];
      }
    }
  }

  // The path that names the elements one after the other.
  function Join(names: seq<seq<Byte>>): (path: seq<Byte>)
    ensures names != [] ==> path != [] && path[0] == SLASH
    ensures names == [] ==> path == []
  {
    if names == [] then [] else [SLASH] + names[0] + Join(names[1..])
  }

  // Splitting a path inverts joining its elements.
  lemma {:induction false} ElementsOfJoin(names: seq<seq<Byte>>)
    requires forall i :: 0 <= i < |names| ==> 0 < |names[i]| <= DIRSIZ && SLASH !in names[i]
    ensures Elements(Join(names)) == names
  {
    hide ElementLen;
    if names != [] {
      var rest := names[0] + Join(names[1..]);
      assert Join(names)[1..] == rest;
      ElementLenIs(rest, |names[0]|);
      assert rest[..|names[0]|] == names[0] && rest[|names[0]|..] == Join(names[1..]);
      ElementsOfJoin(names[1..]);
    }
  }
}
