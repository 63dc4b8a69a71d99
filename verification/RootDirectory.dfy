/**
 main of labo2/mkfs/mkfs.c: a root directory that names each file, and the files.
 */
module RootDirectory {
  import opened Blocks
  import opened Inodes
  import opened Writing
  import opened Holes
  import opened FileSystem
  import opened Directories
  import opened Mkfs

  const ROOTINO: nat := 1

  function Dot(): (name: seq<Byte>) {
    [46]
  }

  function DotDot(): (name: seq<Byte>) {
    [46, 46]
  }

  function Concat(chunks: seq<seq<Byte>>): seq<Byte> {
    if chunks == [] then [] else Concat(chunks[..|chunks| - 1]) + chunks[|chunks| - 1]
  }

  // The names of the first `n` files, with the inode numbers they get.
  function RootView(names: seq<seq<Byte>>, n: nat): map<seq<Byte>, nat>
    requires n <= |names|
  {
    if n == 0 then map[Key(Dot()) := ROOTINO, Key(DotDot()) := ROOTINO]
    else RootView(names, n - 1)[Key(names[n - 1]) := ROOTINO + n]
  }

  predicate GoodNames(names: seq<seq<Byte>>) {
    && (forall k :: 0 <= k < |names| ==> NulFree(names[k]) && Key(names[k]) != Key(Dot()) && Key(names[k]) != Key(DotDot()))
    && forall j, k :: 0 <= j < k < |names| ==> Key(names[j]) != Key(names[k])
  }

  lemma {:induction false} RootViewKeys(names: seq<seq<Byte>>, n: nat, name: seq<Byte>)
    requires n <= |names|
    ensures name in RootView(names, n) <==>
      name == Key(Dot()) || name == Key(DotDot()) || exists k :: 0 <= k < n && Key(names[k]) == name
  {
    if n > 0 {
      RootViewKeys(names, n - 1, name);
      if Key(names[n - 1]) == name {
        assert n - 1 < n && Key(names[n - 1]) == name;
      }
    }
  }

  // One more entry at the end of a directory.
  lemma EntryAppended(c: seq<Byte>, e: seq<Byte>)
    requires Dir(c) && |e| == ENTRY && (InumOf(e) != 0 ==> NameOf(e) !in View(c))
    ensures Dir(c + e) && |c + e| == |c| + ENTRY
    ensures View(c + e) == if InumOf(e) == 0 then View(c) else View(c)[NameOf(e) := InumOf(e)]
  {
    SplicedEntry(c, Count(c), e);
    assert Spliced(c, ENTRY * Count(c), e) == c + e;
    hide Dir, View, NameOf, InumOf, Spliced, EntryAt, Live;
    assert |c| % ENTRY == 0 by { DirWhole(c); }
    LinkView(c, c + e, Count(c), e);
  }

  lemma DirWhole(c: seq<Byte>)
    requires Dir(c)
    ensures |c| % ENTRY == 0
  {
  }

  // Zeroes at the end of a directory are free entries.
  lemma {:induction false} ZeroesAppended(c: seq<Byte>, n: nat)
    requires Dir(c)
    ensures Dir(ZeroTo(c, |c| + ENTRY * n)) && View(ZeroTo(c, |c| + ENTRY * n)) == View(c)
  {
    if n == 0 {
      assert ZeroTo(c, |c|) == c;
    } else {
      var e: seq<Byte> := seq(ENTRY, i => 0);
      assert ZeroTo(c, |c| + ENTRY * n) == ZeroTo(c, |c| + ENTRY * (n - 1)) + e;
      assert InumOf(e) == 0;
      hide Dir, View, ZeroTo;
      ZeroesAppended(c, n - 1);
      EntryAppended(ZeroTo(c, |c| + ENTRY * (n - 1)), e);
    }
  }

  lemma RootPadded(c: seq<Byte>)
    requires Dir(c)
    ensures |c| <= RoundedUp(|c|)
    ensures Dir(ZeroTo(c, RoundedUp(|c|))) && View(ZeroTo(c, RoundedUp(|c|))) == View(c)
  {
    DirWhole(c);
    var n := (RoundedUp(|c|) - |c|) / ENTRY;
    assert RoundedUp(|c|) == |c| + ENTRY * n;
    ZeroesAppended(c, n);
  }

  // ---------- What fits ----------

  // The blocks that the first `n` files take.
  function AllNeed(chunks: seq<seq<seq<Byte>>>, n: nat): nat
    requires n <= |chunks|
  {
    if n == 0 then 0 else AllNeed(chunks, n - 1) + Needs(|Concat(chunks[n - 1])|)
  }

  lemma {:induction false} AllNeedMore(chunks: seq<seq<seq<Byte>>>, n: nat)
    requires n <= |chunks|
    ensures AllNeed(chunks, n) <= AllNeed(chunks, |chunks|)
    decreases |chunks| - n
  {
    if n < |chunks| {
      AllNeedMore(chunks, n + 1);
    }
  }

  predicate Fits(sb: Super, ninodes: nat, chunks: seq<seq<seq<Byte>>>) {
    && |chunks| + 2 <= ninodes <= SHORT
    && ENTRY * (|chunks| + 2) < MAXBYTES
    && (forall k :: 0 <= k < |chunks| ==> |Concat(chunks[k])| <= MAXBYTES)
    && sb.datastart + Needs(ENTRY * (|chunks| + 2)) + AllNeed(chunks, |chunks|) <= sb.size
    && sb.datastart + Needs(ENTRY * (|chunks| + 2)) + AllNeed(chunks, |chunks|) < BPB
  }

  // Files 2 up to 1 + n are there, and the root directory names them.
  ghost predicate Made(files: seq<seq<Byte>>, names: seq<seq<Byte>>, chunks: seq<seq<seq<Byte>>>, n: nat) {
    && n <= |names| == |chunks| && n + 2 <= |files|
    && Dir(files[ROOTINO]) && |files[ROOTINO]| == ENTRY * (n + 2) && View(files[ROOTINO]) == RootView(names, n)
    && (forall k :: 0 <= k < n ==> files[2 + k] == Concat(chunks[k]))
    && forall i :: n + 2 <= i < |files| ==> files[i] == []
  }

  lemma BuilderShape(b: Builder)
    requires b.Valid()
    ensures |b.files| == |b.ino| && b.freeinode <= |b.ino| && forall i :: b.freeinode <= i < |b.ino| ==>
      b.files[i] == []
  {
    hide Image, Total, FileIs;
  }

  // A new entry in the root directory.
  method AddEntry(b: Builder, name: seq<Byte>, inum: nat)
    requires b.Valid() && ROOTINO < b.freeinode && 0 < inum < SHORT && NulFree(name)
    requires |b.files| == |b.ino| && b.freeinode <= |b.ino|
    requires Dir(b.files[ROOTINO]) && Key(name) !in View(b.files[ROOTINO]) && |b.files[ROOTINO]| + ENTRY <= MAXBYTES
    requires b.freeblock + Needs(|b.files[ROOTINO]| + ENTRY) - Needs(|b.files[ROOTINO]|) <= b.sb.size
    modifies b`d, b`ino, b`freeblock, b`owner, b`files
    ensures b.Valid() && |b.ino| == |old(b.ino)| && |b.files| == |b.ino|
    ensures b.files == old(b.files)[ROOTINO := b.files[ROOTINO]]
    ensures |b.files[ROOTINO]| == |old(b.files[ROOTINO])| + ENTRY
    ensures Dir(b.files[ROOTINO]) && View(b.files[ROOTINO]) == View(old(b.files[ROOTINO]))[Key(name) := inum]
    ensures b.freeblock == old(b.freeblock) + Needs(|b.files[ROOTINO]|) - Needs(|old(b.files[ROOTINO])|)
  {
    hide Builder.Valid, Dir, View, Key, NameOf, InumOf, Needs;
    var e := MakeEntry(name, inum);
    EntryAppended(b.files[ROOTINO], e);
    b.Iappend(ROOTINO, e);
  }

  lemma {:induction false} ConcatPrefix(cs: seq<seq<Byte>>, j: nat)
    requires j <= |cs|
    ensures |Concat(cs[..j])| <= |Concat(cs)|
    decreases |cs| - j
  {
    if j < |cs| {
      assert cs[..j + 1][..j] == cs[..j];
      ConcatPrefix(cs, j + 1);
    } else {
      assert cs[..j] == cs;
    }
  }

  // The loop that copies a file in, in the pieces that read returns.
  method AddFile(b: Builder, inum: nat, cs: seq<seq<Byte>>)
    requires b.Valid() && inum < b.freeinode <= |b.ino| == |b.files| && b.files[inum] == []
    requires |Concat(cs)| <= MAXBYTES && b.freeblock + Needs(|Concat(cs)|) <= b.sb.size
    modifies b`d, b`ino, b`freeblock, b`owner, b`files
    ensures b.Valid() && |b.ino| == |old(b.ino)| && |b.files| == |b.ino|
    ensures b.files == old(b.files)[inum := Concat(cs)]
    ensures b.freeblock == old(b.freeblock) + Needs(|Concat(cs)|)
  {
    hide Builder.Valid;
    assert Needs(0) == 0;
    hide Needs;
    var j := 0;
    assert cs[..0] == [];
    while j < |cs|
      invariant j <= |cs| && b.Valid() && |b.ino| == |old(b.ino)| && |b.files| == |b.ino|
      invariant b.files == old(b.files)[inum := Concat(cs[..j])]
      invariant b.freeblock == old(b.freeblock) + Needs(|Concat(cs[..j])|)
    {
      assert cs[..j + 1][..j] == cs[..j];
      ConcatPrefix(cs, j + 1);
      NeedsMore(|Concat(cs[..j + 1])|, |Concat(cs)|);
      b.Iappend(inum, cs[j]);
      j := j + 1;
    }
    assert cs[..j] == cs;
  }

  // "." and ".."
  method MakeRoot(b: Builder)
    requires b.Valid() && b.freeinode == ROOTINO < |b.ino| && b.freeblock == b.sb.datastart
    requires b.sb.datastart + Needs(ENTRY * 2) <= b.sb.size
    modifies b
    ensures b.Valid() && |b.ino| == |old(b.ino)| && b.freeinode == ROOTINO + 1
    ensures b.freeblock == b.sb.datastart + Needs(ENTRY * 2)
    ensures Made(b.files, [], [], 0)
  {
    hide Builder.Valid, Key, Needs, Dir, View, RootView, Dot, DotDot;
    BuilderShape(b);
    EmptyRoot();
    var rootino := b.Ialloc();
    NeedsMore(ENTRY, ENTRY * 2);
    AddEntry(b, Dot(), rootino);
    AddEntry(b, DotDot(), rootino);
    BuilderShape(b);
  }

  // The names of the first two entries, and what they are added to.
  lemma EmptyRoot()
    ensures NulFree(Dot()) && NulFree(DotDot()) && Key(Dot()) != Key(DotDot())
    ensures Needs(0) == 0 && Dir([]) && View([]) == map[]
    ensures View([])[Key(Dot()) := ROOTINO][Key(DotDot()) := ROOTINO] == RootView([], 0)
  {
    DotKeys();
    hide Key;
    assert View([]) == map[];
    hide View;
  }

  lemma DotKeys()
    ensures Key(Dot()) == Dot() && Key(DotDot()) == DotDot()
  {
    CStrFrom(Dot(), DIRSIZ, 1);
    CStrFrom(DotDot(), DIRSIZ, 2);
    CStrHead(Dot()[1..], DIRSIZ - 1);
    CStrHead(DotDot()[2..], DIRSIZ - 2);
  }

  // One file of main's loop.
  method MakeFile(b: Builder, names: seq<seq<Byte>>, chunks: seq<seq<seq<Byte>>>, n: nat)
    requires b.Valid() && n < |names| == |chunks| && Made(b.files, names, chunks, n) && b.freeinode == n + 2
    requires GoodNames(names) && Fits(b.sb, |b.ino|, chunks)
    requires b.freeblock == b.sb.datastart + Needs(ENTRY * (n + 2)) + AllNeed(chunks, n)
    modifies b
    ensures b.Valid() && |b.ino| == |old(b.ino)| && Made(b.files, names, chunks, n + 1) && b.freeinode == n + 3
    ensures b.freeblock == b.sb.datastart + Needs(ENTRY * (n + 3)) + AllNeed(chunks, n + 1)
  {
    hide Builder.Valid, Needs, Dir, View, Key, Made, Fits, GoodNames, AllNeed, Concat;
    BuilderShape(b);
    FitsNext(b.sb, |b.ino|, chunks, n);
    MadeFacts(b.files, names, chunks, n);
    ghost var files := b.files;
    var inum := b.Ialloc();
    AddEntry(b, names[n], inum);
    AddFile(b, inum, chunks[n]);
    MadeNext(files, b.files, names, chunks, n);
  }

  lemma FitsNext(sb: Super, ninodes: nat, chunks: seq<seq<seq<Byte>>>, n: nat)
    requires Fits(sb, ninodes, chunks) && n < |chunks|
    ensures n + 2 < ninodes <= SHORT && ENTRY * (n + 3) <= MAXBYTES && |Concat(chunks[n])| <= MAXBYTES
    ensures sb.datastart + Needs(ENTRY * (n + 3)) + AllNeed(chunks, n) + Needs(|Concat(chunks[n])|) <= sb.size
    ensures AllNeed(chunks, n + 1) == AllNeed(chunks, n) + Needs(|Concat(chunks[n])|)
  {
    NeedsMore(ENTRY * (n + 3), ENTRY * (|chunks| + 2));
    AllNeedMore(chunks, n + 1);
    hide Needs, Concat;
  }

  lemma MadeFacts(files: seq<seq<Byte>>, names: seq<seq<Byte>>, chunks: seq<seq<seq<Byte>>>, n: nat)
    requires Made(files, names, chunks, n) && n < |names| && GoodNames(names)
    ensures NulFree(names[n]) && ROOTINO < |files| && Dir(files[ROOTINO]) && |files[ROOTINO]| == ENTRY * (n + 2)
    ensures Key(names[n]) !in View(files[ROOTINO])
  {
    hide Key, View, Dir;
    RootViewKeys(names, n, Key(names[n]));
  }

  lemma MadeNext(files: seq<seq<Byte>>, g: seq<seq<Byte>>, names: seq<seq<Byte>>, chunks: seq<seq<seq<Byte>>>, n: nat)
    requires Made(files, names, chunks, n) && n < |names| && n + 2 < |files| == |g|
    requires g == files[ROOTINO := g[ROOTINO]][n + 2 := Concat(chunks[n])]
    requires Dir(g[ROOTINO]) && |g[ROOTINO]| == |files[ROOTINO]| + ENTRY
    requires View(g[ROOTINO]) == View(files[ROOTINO])[Key(names[n]) := n + 2]
    ensures Made(g, names, chunks, n + 1)
  {
    hide Key, View, Dir, Concat;
  }

  /**
   mkfs: from a blank image, a file system whose root directory names every file, and whose
   files have the bytes read.
   */
  method MakeFs(b: Builder, names: seq<seq<Byte>>, chunks: seq<seq<seq<Byte>>>)
    requires b.Valid() && b.freeinode == ROOTINO && b.freeblock == b.sb.datastart
    requires |names| == |chunks| && GoodNames(names) && Fits(b.sb, |b.ino|, chunks)
    modifies b
    ensures Finished(b.sb, b.d, b.ino, b.owner, b.files, ROOTINO) && |b.files| == |b.ino| == |old(b.ino)|
    ensures forall k :: 0 <= k < |names| ==> b.files[2 + k] == Concat(chunks[k])
    ensures Dir(ZeroTo(b.files[ROOTINO], RoundedUp(|b.files[ROOTINO]|)))
    ensures View(ZeroTo(b.files[ROOTINO], RoundedUp(|b.files[ROOTINO]|))) == RootView(names, |names|)
    ensures RootHasNoHoles(b.d, b.ino) <==> (|names| + 2) % 64 != 0
    ensures RootLacks(b.d, b.ino) == {} <==> (|names| + 2) % 64 != 0
    ensures HoleFree(b.d, b.ino) <==> (|names| + 2) % 64 != 0
  {
    hide Builder.Valid, Finished, AllNeed, Made, Dir, View, Fits, GoodNames, Needs, ZeroTo, RoundedUp, RootHasNoHoles,
         RootLacks, HoleFree,
         RootView;
    BuilderShape(b);
    FitsStart(b.sb, |b.ino|, chunks);
    MakeRoot(b);
    MadeNone(b.files, names, chunks);
    AllNeedNone(chunks);
    var n := 0;
    while n < |names|
      invariant n <= |names| && b.Valid() && |b.ino| == |old(b.ino)| && b.freeinode == n + 2
      invariant Made(b.files, names, chunks, n)
      invariant b.freeblock == b.sb.datastart + Needs(ENTRY * (n + 2)) + AllNeed(chunks, n)
    {
      MakeFile(b, names, chunks, n);
      n := n + 1;
    }
    BuilderShape(b);
    MadeAll(b.files, names, chunks);
    RootPadded(b.files[ROOTINO]);
    b.Finish(ROOTINO);
    FinishedShape(b.sb, b.d, b.ino, b.owner, b.files);
    RootHoles(b.sb, b.d, b.ino, b.owner, b.files, |names|);
  }

  lemma FitsStart(sb: Super, ninodes: nat, chunks: seq<seq<seq<Byte>>>)
    requires Fits(sb, ninodes, chunks)
    ensures ROOTINO < ninodes && sb.datastart + Needs(ENTRY * 2) <= sb.size
    ensures ENTRY * (|chunks| + 2) < MAXBYTES
    ensures sb.datastart + Needs(ENTRY * (|chunks| + 2)) + AllNeed(chunks, |chunks|) < BPB
  {
    NeedsMore(ENTRY * 2, ENTRY * (|chunks| + 2));
    hide Needs;
  }

  lemma MadeAll(files: seq<seq<Byte>>, names: seq<seq<Byte>>, chunks: seq<seq<seq<Byte>>>)
    requires Made(files, names, chunks, |names|)
    ensures ROOTINO < |files| && |files[ROOTINO]| == ENTRY * (|names| + 2) && |names| + 2 <= |files|
    ensures Dir(files[ROOTINO]) && View(files[ROOTINO]) == RootView(names, |names|)
    ensures forall k :: 0 <= k < |names| ==> files[2 + k] == Concat(chunks[k])
  {
    hide Dir, View, Concat;
  }

  lemma FinishedShape(sb: Super, d: Disk, ino: seq<Inode>, owner: map<nat, Slot>, files: seq<seq<Byte>>)
    requires Finished(sb, d, ino, owner, files, ROOTINO)
    ensures |files| == |ino|
  {
    hide Good, HasFile, NoHoles;
  }

  lemma MadeNone(files: seq<seq<Byte>>, names: seq<seq<Byte>>, chunks: seq<seq<seq<Byte>>>)
    requires Made(files, [], [], 0) && |names| == |chunks|
    ensures Made(files, names, chunks, 0)
  {
    hide Dir, View;
  }

  lemma AllNeedNone(chunks: seq<seq<seq<Byte>>>)
    ensures AllNeed(chunks, 0) == 0
  {
  }

  ghost predicate RootHasNoHoles(d: Disk, ino: seq<Inode>) {
    AllReadable(d, ino) && ROOTINO < |ino| && ino[ROOTINO].size <= MAXBYTES
      && NoHoles(Tables(d, ino)[ROOTINO], ino[ROOTINO].size)
  }

  // The blocks that reading the whole root directory has to allocate.
  ghost function RootLacks(d: Disk, ino: seq<Inode>): set<nat> {
    if AllReadable(d, ino) && ROOTINO < |ino| then Needed(Tables(d, ino)[ROOTINO], 0, ino[ROOTINO].size) else {}
  }

  lemma RootHoles(sb: Super, d: Disk, ino: seq<Inode>, owner: map<nat, Slot>, files: seq<seq<Byte>>, n: nat)
    requires Finished(sb, d, ino, owner, files, ROOTINO) && |files[ROOTINO]| == ENTRY * (n + 2)
    ensures RootHasNoHoles(d, ino) <==> (n + 2) % 64 != 0
    ensures RootLacks(d, ino) == {} <==> (n + 2) % 64 != 0
    ensures HoleFree(d, ino) <==> (n + 2) % 64 != 0
  {
    hide Good, HasFile, NoHoles, Tables, Aligned, RoundedUp, Needed;
    GoodFacts(sb, d, ino, owner);
    EntriesAligned(n + 2);
    RowRooted(d, ino, ROOTINO);
    NoHolesIff(Tables(d, ino)[ROOTINO], ino[ROOTINO].size);
  }

  lemma EntriesAligned(n: nat)
    ensures Aligned(ENTRY * n) <==> n % 64 == 0
  {
  }
}
