/**
 The file system above its log: a transaction of labo2/kernel/fs.c, committed by
 labo2/kernel/log.c and cut by a crash at any block write, leaves after recovery the file
 system from before it or the one from after it.
 */
module CrashSafety {
  import opened Blocks
  import opened Inodes
  import opened Writing
  import opened Holes
  import opened FileSystem
  import opened Directories
  import RedoLog

  // ---------- The blocks of a disk ----------

  // struct dinode: type, major, minor and nlink, then size and addrs[NDIRECT + 1].
  const DINODE: nat := 16
  const SIZE: nat := 2
  const ADDRS: nat := 3

  // The log lies before the inodes.
  predicate Laid(sb: Super, g: RedoLog.Geometry) {
    1 < g.start && g.start + g.size <= sb.inodestart
  }

  // Where inode `i` begins in its block.
  function DinodeAt(i: nat): (w: nat)
    ensures w + DINODE <= RedoLog.WORDS
  {
    i % IPB * DINODE
  }

  // The words of `b` at inode `i` are the inode `ip`.
  ghost predicate IsDinode(b: RedoLog.Block, i: nat, ip: Inode) {
    && |ip.addrs| == NDIRECT + 1 && b[DinodeAt(i) + SIZE] == ip.size
    && forall s :: 0 <= s <= NDIRECT ==> b[DinodeAt(i) + ADDRS + s] == ip.addrs[s]
  }

  // The disk `m` has the inodes `dino`, and from the free map on the blocks of `d`.
  ghost predicate Stands(sb: Super, m: RedoLog.Image, d: Disk, dino: seq<Inode>) {
    && sb.Valid(|dino|) && |m| == |d| == sb.size
    && (forall b :: sb.bmapstart <= b < sb.size ==> m[b] == Words(d[b]))
    && (forall i :: 0 <= i < |dino| ==> sb.IBlock(i) < sb.bmapstart && IsDinode(m[sb.IBlock(i)], i, dino[i]))
  }

  lemma WordsOnce(b: Block, c: Block)
    requires Words(b) == Words(c)
    ensures b == c
  {
    forall k | 0 <= k < BSIZE
      ensures b[k] == c[k]
    {
      var j := k / 4;
      assert Words(b)[j] == Word(b, j) && Words(c)[j] == Word(c, j);
      BytesOnce(b[4 * j], b[4 * j + 1], b[4 * j + 2], b[4 * j + 3], c[4 * j], c[4 * j + 1], c[4 * j + 2], c[4 * j + 3]);
    }
  }

  lemma BytesOnce(b0: Byte, b1: Byte, b2: Byte, b3: Byte, c0: Byte, c1: Byte, c2: Byte, c3: Byte)
    requires FourBytes(b0, b1, b2, b3) == FourBytes(c0, c1, c2, c3)
    ensures b0 == c0 && b1 == c1 && b2 == c2 && b3 == c3
  {
    LowByte(b0, b1 + 256 * (b2 + 256 * b3), c0, c1 + 256 * (c2 + 256 * c3));
    LowByte(b1, b2 + 256 * b3, c1, c2 + 256 * c3);
    LowByte(b2, b3, c2, c3);
  }

  lemma LowByte(b: Byte, x: int, c: Byte, y: int)
    requires b + 256 * x == c + 256 * y
    ensures b == c && x == y
  {
  }

  /** A disk stands for one file system only. */
  lemma StandsOnce(sb: Super, m: RedoLog.Image, d: Disk, dino: seq<Inode>, e: Disk, jno: seq<Inode>)
    requires Stands(sb, m, d, dino) && Stands(sb, m, e, jno) && |dino| == |jno|
    ensures dino == jno && forall b :: sb.bmapstart <= b < sb.size ==> e[b] == d[b]
  {
    hide Words, DinodeAt;
    forall b | sb.bmapstart <= b < sb.size
      ensures e[b] == d[b]
    {
      WordsOnce(e[b], d[b]);
    }
    forall i | 0 <= i < |dino|
      ensures dino[i] == jno[i]
    {
      assert IsDinode(m[sb.IBlock(i)], i, dino[i]) && IsDinode(m[sb.IBlock(i)], i, jno[i]);
      assert dino[i].addrs == jno[i].addrs;
    }
  }

  // The log is no part of it.
  lemma StandsAt(sb: Super, g: RedoLog.Geometry, m: RedoLog.Image, n: RedoLog.Image, d: Disk, dino: seq<Inode>)
    requires Stands(sb, m, d, dino) && Laid(sb, g) && RedoLog.SameHome(g, m, n)
    ensures Stands(sb, n, d, dino)
  {
    hide Words, IsDinode, Super.IBlock;
    forall i | 0 <= i < |dino|
      ensures IsDinode(n[sb.IBlock(i)], i, dino[i])
    {
      InodeBlock(sb, |dino|, i);
    }
    InOrder(sb, |dino|);
  }

  lemma InOrder(sb: Super, n: nat)
    requires sb.Valid(n)
    ensures sb.inodestart < sb.bmapstart < sb.datastart <= sb.size
  {
    assert 0 <= n / IPB && 0 <= sb.size / BPB;
  }

  // ---------- What log_write gets ----------

  predicate AllAddrs(dino: seq<Inode>) {
    forall i :: 0 <= i < |dino| ==> |dino[i].addrs| == NDIRECT + 1
  }

  // Block `b` of the inodes, where `was` has what else it holds.
  function WithDinodes(sb: Super, was: RedoLog.Block, dino: seq<Inode>, b: nat): (x: RedoLog.Block)
    requires sb.inodestart <= b && AllAddrs(dino)
  {
    seq(RedoLog.WORDS, w requires 0 <= w < RedoLog.WORDS =>
      var i, k := (b - sb.inodestart) * IPB + w / DINODE, w % DINODE;
      if i >= |dino| || k < SIZE then was[w] else if k == SIZE then dino[i].size else dino[i].addrs[k - ADDRS])
  }

  function Encoded(sb: Super, was: RedoLog.Block, d: Disk, dino: seq<Inode>, b: nat): (x: RedoLog.Block)
    requires sb.inodestart <= b < |d| && AllAddrs(dino)
  {
    if b < sb.bmapstart then WithDinodes(sb, was, dino, b) else Words(d[b])
  }

  lemma DinodeIn(sb: Super, was: RedoLog.Block, dino: seq<Inode>, i: nat)
    requires i < |dino| && AllAddrs(dino)
    ensures IsDinode(WithDinodes(sb, was, dino, sb.IBlock(i)), i, dino[i])
  {
    DinodePlace(sb, i, SIZE);
    forall s | 0 <= s <= NDIRECT
      ensures WithDinodes(sb, was, dino, sb.IBlock(i))[DinodeAt(i) + ADDRS + s] == dino[i].addrs[s]
    {
      DinodePlace(sb, i, ADDRS + s);
    }
  }

  lemma DinodePlace(sb: Super, i: nat, k: nat)
    requires k < DINODE
    ensures (sb.IBlock(i) - sb.inodestart) * IPB + (DinodeAt(i) + k) / DINODE == i && (DinodeAt(i) + k) % DINODE == k
  {
    assert (i % IPB * DINODE + k) / DINODE == i % IPB;
  }

  // What the cache presents over the disk `m` once the blocks of `done` are changed.
  function Latest(sb: Super, m: RedoLog.Image, d: Disk, dino: seq<Inode>, done: set<nat>): (n: RedoLog.Image)
    requires |m| == |d| && AllAddrs(dino)
    ensures |n| == |m|
  {
    seq(|m|, b requires 0 <= b < |m| => if b in done && sb.inodestart <= b then Encoded(sb, m[b], d, dino, b) else m[b])
  }

  lemma LatestNext(sb: Super, m: RedoLog.Image, d: Disk, dino: seq<Inode>, done: set<nat>, b: nat)
    requires |m| == |d| && AllAddrs(dino) && sb.inodestart <= b < |m| && b !in done
    ensures Latest(sb, m, d, dino, done)[b] == m[b]
    ensures Latest(sb, m, d, dino, done + {b}) == Latest(sb, m, d, dino, done)[b := Encoded(sb, m[b], d, dino, b)]
  {
    hide Encoded;
  }

  lemma LatestNone(sb: Super, m: RedoLog.Image, d: Disk, dino: seq<Inode>)
    requires |m| == |d| && AllAddrs(dino)
    ensures Latest(sb, m, d, dino, {}) == m
  {
    hide Encoded;
  }

  /** Since every change was passed to log_write, the cache stands for the changed file system. */
  lemma LatestStands(sb: Super, m: RedoLog.Image, base: Disk, baseino: seq<Inode>, d: Disk, dino: seq<Inode>,
                     logged: set<nat>)
    requires Stands(sb, m, base, baseino) && Traced(sb, base, baseino, d, dino, logged) && AllAddrs(dino)
    ensures |m| == |d| && Stands(sb, Latest(sb, m, d, dino, logged), d, dino)
  {
    hide Words, WithDinodes, IsDinode, Super.IBlock, Super.Valid;
    var n := Latest(sb, m, d, dino, logged);
    InOrder(sb, |dino|);
    forall i | 0 <= i < |dino|
      ensures sb.IBlock(i) < sb.bmapstart && IsDinode(n[sb.IBlock(i)], i, dino[i])
    {
      InodeBlock(sb, |dino|, i);
      DinodeIn(sb, m[sb.IBlock(i)], dino, i);
    }
  }

  // `s` has the blocks of the transaction, each once.
  ghost predicate Lists(s: seq<int>, logged: set<nat>) {
    RedoLog.Distinct(s) && |s| == |logged| && forall b :: b in s <==> b in logged
  }

  lemma ListsHome(sb: Super, g: RedoLog.Geometry, base: Disk, baseino: seq<Inode>, d: Disk, dino: seq<Inode>,
                  logged: set<nat>, s: seq<int>)
    requires Laid(sb, g) && Traced(sb, base, baseino, d, dino, logged) && Lists(s, logged) && |s| <= g.Capacity()
    ensures RedoLog.HomeBlocks(g, |d|, s)
  {
    forall j | 0 <= j < |s|
      ensures 0 <= s[j] < |d| && !g.InLog(s[j])
    {
      assert s[j] in s;
    }
  }

  // ---------- Crashes ----------

  // Recovery from `m`, however often it is cut, ends at the file system (d, dino).
  ghost predicate RecoversTo(sb: Super, g: RedoLog.Geometry, m: RedoLog.Image, d: Disk, dino: seq<Inode>) {
    RedoLog.GoodHeader(g, m) &&
    forall crashes: seq<nat> ::
      var end := RedoLog.Recovered(g, RedoLog.AfterCrashes(g, m, crashes));
      RedoLog.GoodHeader(g, end) && RedoLog.Logged(g, end) == [] && Stands(sb, end, d, dino)
  }

  /**
   A crash after `k` of the writes of the commit, and any crashes of the recoveries: the disk
   stands for the file system before the transaction, or for the one after it.
   */
  lemma TransactionIsAtomic(sb: Super, g: RedoLog.Geometry, m: RedoLog.Image, base: Disk, baseino: seq<Inode>,
                            d: Disk, dino: seq<Inode>, logged: set<nat>, s: seq<int>, k: nat)
    requires Laid(sb, g) && RedoLog.GoodHeader(g, m) && RedoLog.Logged(g, m) == [] && Stands(sb, m, base, baseino)
    requires Traced(sb, base, baseino, d, dino, logged) && AllAddrs(dino) && Lists(s, logged) && |s| <= g.Capacity()
    ensures |m| == |d| && RedoLog.HomeBlocks(g, |m|, s)
    ensures var crashed := RedoLog.CommitAt(g, m, Latest(sb, m, d, dino, logged), s, k);
            if k <= |s| then RecoversTo(sb, g, crashed, base, baseino) else RecoversTo(sb, g, crashed, d, dino)
  {
    HeaderFits(g, m);
    hide Stands, Traced, RedoLog.HomeBlocks, RedoLog.CommitAt, RedoLog.Recovered, RedoLog.AfterCrashes,
         RedoLog.GoodHeader, RedoLog.Logged, Latest, Laid;
    LatestStands(sb, m, base, baseino, d, dino, logged);
    ListsHome(sb, g, base, baseino, d, dino, logged, s);
    var cached := Latest(sb, m, d, dino, logged);
    var crashed := RedoLog.CommitAt(g, m, cached, s, k);
    RedoLog.CrashAtomicity(g, m, cached, s, k, []);
    forall crashes: seq<nat>
      ensures var end := RedoLog.Recovered(g, RedoLog.AfterCrashes(g, crashed, crashes));
              && RedoLog.GoodHeader(g, end) && RedoLog.Logged(g, end) == []
              && if k <= |s| then Stands(sb, end, base, baseino) else Stands(sb, end, d, dino)
    {
      RedoLog.CrashAtomicity(g, m, cached, s, k, crashes);
      var end := RedoLog.Recovered(g, RedoLog.AfterCrashes(g, crashed, crashes));
      if k <= |s| {
        SameHomeBack(g, end, m);
        StandsAt(sb, g, m, end, base, baseino);
      } else {
        UpdatedIsLatest(sb, g, m, d, dino, logged, s, end);
        StandsAt(sb, g, cached, end, d, dino);
      }
    }
  }

  lemma SameHomeBack(g: RedoLog.Geometry, m: RedoLog.Image, n: RedoLog.Image)
    requires RedoLog.SameHome(g, m, n)
    ensures RedoLog.SameHome(g, n, m)
  {
  }

  lemma UpdatedIsLatest(sb: Super, g: RedoLog.Geometry, m: RedoLog.Image, d: Disk, dino: seq<Inode>, logged: set<nat>,
                        s: seq<int>, end: RedoLog.Image)
    requires |m| == |d| && AllAddrs(dino) && Lists(s, logged)
    requires RedoLog.Updated(g, m, Latest(sb, m, d, dino, logged), s, end)
    ensures RedoLog.SameHome(g, Latest(sb, m, d, dino, logged), end)
  {
    hide Encoded;
  }

  lemma SameMarks(sb: Super, d: Disk, e: Disk, b: nat)
    requires sb.Valid(0) && |d| == |e| == sb.size && b < sb.size
    requires forall c :: sb.bmapstart <= c < sb.size ==> e[c] == d[c]
    ensures Marked(sb, e, b) <==> Marked(sb, d, b)
  {
    MapBlock(sb, b);
  }

  // What comes before the free map plays no part.
  lemma GoodAsRead(sb: Super, d: Disk, e: Disk, ino: seq<Inode>, owner: map<nat, Slot>)
    requires Good(sb, d, ino, owner, {}) && |e| == |d| && forall b :: sb.bmapstart <= b < |d| ==> e[b] == d[b]
    ensures Good(sb, e, ino, owner, {}) && AllReadable(d, ino) && AllReadable(e, ino)
    ensures forall i :: 0 <= i < |ino| && ino[i].size <= MAXBYTES ==> Contents(e, ino[i]) == Contents(d, ino[i])
  {
    GoodFacts(sb, d, ino, owner);
    InOrder(sb, 0);
    hide Owned, Space, Table, Tables, Marked;
    TablesKept(d, e, ino, owner);
    forall b | 0 <= b < sb.size
      ensures Marked(sb, e, b) <==> Marked(sb, d, b)
    {
      SameMarks(sb, d, e, b);
    }
    forall i | 0 <= i < |ino|
      ensures Space(e, Table(e, ino[i])) == Space(d, Table(d, ino[i]))
    {
      SpaceKept(d, e, Tables(d, ino), owner, i);
      TableOf(d, ino, i);
      TableOf(e, ino, i);
    }
  }

  /** Whatever blocks and inodes are read from the recovered disk, they are those of that file system. */
  lemma RecoveredGood(sb: Super, g: RedoLog.Geometry, m: RedoLog.Image, d: Disk, dino: seq<Inode>,
                      owner: map<nat, Slot>, crashes: seq<nat>, e: Disk, jno: seq<Inode>)
    requires RecoversTo(sb, g, m, d, dino) && Good(sb, d, dino, owner, {}) && |jno| == |dino|
    requires RedoLog.GoodHeader(g, m) && Stands(sb, RedoLog.Recovered(g, RedoLog.AfterCrashes(g, m, crashes)), e, jno)
    ensures jno == dino && Good(sb, e, jno, owner, {}) && AllReadable(d, dino) && AllReadable(e, jno)
    ensures forall i :: 0 <= i < |jno| && jno[i].size <= MAXBYTES ==> Contents(e, jno[i]) == Contents(d, dino[i])
  {
    var end := RedoLog.Recovered(g, RedoLog.AfterCrashes(g, m, crashes));
    assert Stands(sb, end, d, dino);
    StandsOnce(sb, end, d, dino, e, jno);
    hide Good, Contents, RecoversTo;
    GoodAsRead(sb, d, e, dino, owner);
  }

  // Every disk of `writes` from the `from`-th on recovers to the old or to the new file system.
  ghost predicate Survives(sb: Super, g: RedoLog.Geometry, writes: seq<RedoLog.Image>, from: nat, base: Disk,
                           baseino: seq<Inode>, d: Disk, dino: seq<Inode>)
  {
    forall k :: from <= k < |writes| ==>
      RecoversTo(sb, g, writes[k], base, baseino) || RecoversTo(sb, g, writes[k], d, dino)
  }

  lemma CommitSurvives(sb: Super, g: RedoLog.Geometry, m: RedoLog.Image, base: Disk, baseino: seq<Inode>,
                       d: Disk, dino: seq<Inode>, logged: set<nat>, s: seq<int>, writes: seq<RedoLog.Image>)
    requires Laid(sb, g) && RedoLog.GoodHeader(g, m) && RedoLog.Logged(g, m) == [] && Stands(sb, m, base, baseino)
    requires Traced(sb, base, baseino, d, dino, logged) && AllAddrs(dino) && Lists(s, logged) && |s| <= g.Capacity()
    ensures |m| == |d| && RedoLog.HomeBlocks(g, |m|, s)
    ensures var w := RedoLog.CommitWrites(g, m, Latest(sb, m, d, dino, logged), s);
            Survives(sb, g, writes + w, |writes|, base, baseino, d, dino)
  {
    hide Stands, Traced, RedoLog.HomeBlocks, RedoLog.CommitAt, RedoLog.CommitWrites, RedoLog.GoodHeader,
         RedoLog.Logged, Latest, Laid, RecoversTo, Lists, AllAddrs;
    HeaderFits(g, m);
    TransactionIsAtomic(sb, g, m, base, baseino, d, dino, logged, s, 0);
    var w := RedoLog.CommitWrites(g, m, Latest(sb, m, d, dino, logged), s);
    forall j | 0 <= j < |w|
      ensures RecoversTo(sb, g, w[j], base, baseino) || RecoversTo(sb, g, w[j], d, dino)
    {
      TransactionIsAtomic(sb, g, m, base, baseino, d, dino, logged, s, j + 1);
    }
    assert forall k :: |writes| <= k < |writes + w| ==> (writes + w)[k] == w[k - |writes|];
  }

  lemma HeaderFits(g: RedoLog.Geometry, m: RedoLog.Image)
    requires RedoLog.GoodHeader(g, m)
    ensures g.Fits(m)
  {
  }

  // The blocks of `done` were passed to log_write, those of `left` are to be.
  ghost predicate Logging(sb: Super, g: RedoLog.Geometry, m: RedoLog.Image, latest: RedoLog.Image, s: seq<int>,
                          base: Disk, baseino: seq<Inode>,
                          d: Disk, dino: seq<Inode>, logged: set<nat>, left: set<nat>, done: set<nat>) {
    && |m| == |d| && AllAddrs(dino) && Laid(sb, g) && Traced(sb, base, baseino, d, dino, logged)
    && left !! done && left + done == logged && Lists(s, done)
    && latest == Latest(sb, m, d, dino, done)
  }

  lemma LoggingBegins(sb: Super, g: RedoLog.Geometry, m: RedoLog.Image, latest: RedoLog.Image, base: Disk,
                      baseino: seq<Inode>, d: Disk, dino: seq<Inode>, logged: set<nat>)
    requires RedoLog.Consistent(g, m, latest, []) && Stands(sb, m, base, baseino) && Laid(sb, g)
    requires Traced(sb, base, baseino, d, dino, logged) && AllAddrs(dino)
    ensures RedoLog.GoodHeader(g, m) && RedoLog.Logged(g, m) == []
    ensures Logging(sb, g, m, latest, [], base, baseino, d, dino, logged, logged, {})
  {
    RedoLog.ConsistentFacts(g, m, latest, []);
    LatestNone(sb, m, d, dino);
  }

  lemma LoggingNext(sb: Super, g: RedoLog.Geometry, m: RedoLog.Image, latest: RedoLog.Image, s: seq<int>, base: Disk,
                    baseino: seq<Inode>,
                    d: Disk, dino: seq<Inode>, logged: set<nat>, left: set<nat>, done: set<nat>, b: nat)
    requires Logging(sb, g, m, latest, s, base, baseino, d, dino, logged, left, done) && b in left
    ensures sb.inodestart <= b < |d| == |latest| && !g.InLog(b) && AllAddrs(dino) && |s| < |logged| && b !in s
    ensures Logging(sb, g, m, latest[b := Encoded(sb, latest[b], d, dino, b)], s + [b], base, baseino, d, dino,
            logged, left - {b}, done + {b})
  {
    assert b in logged && logged == done + left && |done + left| == |done| + |left|;
    LatestNext(sb, m, d, dino, done, b);
    ListsNext(s, done, b);
    hide Latest, Encoded, Lists;
  }

  lemma LoggingEnds(sb: Super, g: RedoLog.Geometry, m: RedoLog.Image, latest: RedoLog.Image, s: seq<int>, base: Disk,
                    baseino: seq<Inode>, d: Disk, dino: seq<Inode>, logged: set<nat>, done: set<nat>)
    requires Logging(sb, g, m, latest, s, base, baseino, d, dino, logged, {}, done)
    ensures |m| == |d| && AllAddrs(dino) && Lists(s, logged) && latest == Latest(sb, m, d, dino, logged)
  {
    assert done == logged;
    hide Latest, Lists;
  }

  lemma ListsNext(s: seq<int>, done: set<nat>, b: nat)
    requires Lists(s, done) && b !in done
    ensures |s| == |done| && b !in s && Lists(s + [b], done + {b})
  {
    assert forall j :: 0 <= j < |s| ==> s[j] in s;
  }

  // Between operations the disk stands for the file system, with every inode written back.
  ghost predicate AtRest(fs: Fs, log: RedoLog.Log)
    reads fs, log, log.block
  {
    && fs.Valid() && log.Valid() && log.n == 0 && !log.committing && log.outstanding == 0 && fs.ino == fs.dino
    && Laid(fs.sb, log.g) && Stands(fs.sb, log.disk, fs.d, fs.dino)
  }

  // The log_write calls of an operation, as one pass over the blocks that it changed.
  method LogChanges(fs: Fs, log: RedoLog.Log)
    requires fs.Valid() && log.Valid() && log.n == 0 && log.outstanding >= 1 && AllAddrs(fs.dino)
    requires Laid(fs.sb, log.g) && Stands(fs.sb, log.disk, fs.base, fs.baseino) && |fs.logged| <= log.g.Capacity()
    modifies log`latest, log`n, log`pinned, log.block
    ensures log.Valid() && |log.disk| == |fs.d| && Lists(log.block[..log.n], fs.logged)
    ensures log.latest == Latest(fs.sb, log.disk, fs.d, fs.dino, fs.logged)
    ensures RedoLog.GoodHeader(log.g, log.disk) && RedoLog.Logged(log.g, log.disk) == []
  {
    hide Stands, Traced, Latest, Laid, Encoded, AllAddrs, Good, Lists, Logging, RedoLog.HomeBlocks, RedoLog.GoodHeader,
         RedoLog.Logged, RedoLog.Consistent;
    var sb, d, dino, left := fs.sb, fs.d, fs.dino, fs.logged;
    ghost var m, base, baseino, logged, done := log.disk, fs.base, fs.baseino, fs.logged, {};
    assert log.block[..log.n] == [];
    LoggingBegins(sb, log.g, m, log.latest, base, baseino, d, dino, logged);
    while left != {}
      invariant log.Valid()
      invariant Logging(sb, log.g, m, log.latest, log.block[..log.n], base, baseino, d, dino, logged, left, done)
      decreases |left|
    {
      var b :| b in left;
      LoggingNext(sb, log.g, m, log.latest, log.block[..log.n], base, baseino, d, dino, logged, left, done, b);
      log.LogWrite(b, Encoded(sb, log.latest[b], d, dino, b));
      left := left - {b};
      done := done + {b};
    }
    LoggingEnds(sb, log.g, m, log.latest, log.block[..log.n], base, baseino, d, dino, logged, done);
  }

  /**
   The log_write calls of the operations of a transaction, and their end_ops, of which the
   last one commits: a crash at any write leaves all of their changes or none.
   */
  method CommitChanges(fs: Fs, log: RedoLog.Log)
    requires fs.Valid() && log.Valid() && log.n == 0 && !log.committing && log.outstanding >= 1 && AllAddrs(fs.dino)
    requires Laid(fs.sb, log.g) && Stands(fs.sb, log.disk, fs.base, fs.baseino) && |fs.logged| <= log.g.Capacity()
    modifies log, log.block
    ensures log.Valid() && log.n == 0 && !log.committing && log.outstanding == 0
    ensures Stands(fs.sb, log.disk, fs.d, fs.dino)
    ensures |log.writes| >= |old(log.writes)| && log.writes[..|old(log.writes)|] == old(log.writes)
    ensures Survives(fs.sb, log.g, log.writes, |old(log.writes)|, fs.base, fs.baseino, fs.d, fs.dino)
  {
    hide Stands, Traced, Latest, Laid, AllAddrs, Good, Lists, Survives, RedoLog.HomeBlocks, RedoLog.GoodHeader,
         RedoLog.Logged, RedoLog.Consistent, RedoLog.SameHome, RedoLog.CommitWrites;
    ghost var m, w0 := log.disk, log.writes;
    LogChanges(fs, log);
    ghost var s, cached := log.block[..log.n], log.latest;
    ListsCount(s, fs.logged);
    CommitSurvives(fs.sb, log.g, m, fs.base, fs.baseino, fs.d, fs.dino, fs.logged, s, w0);
    LatestStands(fs.sb, m, fs.base, fs.baseino, fs.d, fs.dino, fs.logged);
    SurvivesNothing(fs.sb, log.g, w0, fs.base, fs.baseino, fs.d, fs.dino);
    while log.outstanding > 1
      invariant log.Valid() && !log.committing && log.outstanding >= 1 && log.disk == m && log.writes == w0
      invariant log.latest == cached && log.block[..log.n] == s
      decreases log.outstanding
    {
      log.EndOp();
    }
    log.EndOp();
    SameHomeBack(log.g, log.disk, cached);
    StandsAt(fs.sb, log.g, cached, log.disk, fs.d, fs.dino);
  }

  lemma ListsCount(s: seq<int>, logged: set<nat>)
    requires Lists(s, logged)
    ensures |s| == |logged|
  {
  }

  lemma SurvivesNothing(sb: Super, g: RedoLog.Geometry, writes: seq<RedoLog.Image>, base: Disk, baseino: seq<Inode>,
                        d: Disk, dino: seq<Inode>)
    ensures Survives(sb, g, writes, |writes|, base, baseino, d, dino)
  {
  }

  lemma ReadableAddrs(d: Disk, ino: seq<Inode>)
    requires AllReadable(d, ino)
    ensures AllAddrs(ino)
  {
  }

  /**
   begin_op, writei and end_op, as filewrite calls them, for a write of at most three blocks.
   A crash at any block write leaves the file system from before the write or the one with
   all of it.
   */
  method WriteOp(fs: Fs, log: RedoLog.Log, i: nat, src: seq<Byte>, off: nat) returns (r: int)
    requires AtRest(fs, log) && log.g.Capacity() >= RedoLog.MAXOPBLOCKS
    requires i < |fs.ino| && off < WORD && |src| <= 3 * BSIZE && NoHoles(Tables(fs.d, fs.ino)[i], fs.ino[i].size)
    modifies fs, log, log.block
    ensures AtRest(fs, log) && |fs.ino| == |old(fs.ino)| && NoHoles(Tables(fs.d, fs.ino)[i], fs.ino[i].size)
    ensures -1 <= r && (r == -1 <==> off > old(fs.ino[i].size) || off + |src| > MAXBYTES)
    ensures r == -1 ==> fs.d == old(fs.d) && fs.ino == old(fs.ino)
    ensures r >= 0 ==>
      && r <= |src| && OthersKept(old(fs.d), old(fs.ino), fs.d, fs.ino, i)
      && Contents(fs.d, fs.ino[i]) == Spliced(Contents(old(fs.d), old(fs.ino[i])), off, Piece(src, 0, r))
    ensures r >= 0 ==>
      (r == |src| <==> |Needed(Tables(old(fs.d), old(fs.ino))[i], off, off + |src|)| <= FreeBlocks(fs.sb, old(fs.d)))
    ensures HoleFree(old(fs.d), old(fs.ino)) ==> HoleFree(fs.d, fs.ino)
    ensures |log.writes| >= |old(log.writes)| && log.writes[..|old(log.writes)|] == old(log.writes)
    ensures Survives(fs.sb, log.g, log.writes, |old(log.writes)|, old(fs.d), old(fs.dino), fs.d, fs.dino)
  {
    hide Stands, Traced, Laid, AllAddrs, Good, Survives, NoHoles, Tables, OthersKept, Contents, Spliced, Piece, Needed,
         FreeBlocks, HoleFree, AllMarked, Aligned, AllReadable, RedoLog.HomeBlocks, RedoLog.Consistent;
    ghost var ino0 := fs.ino;
    var admitted := log.BeginOp();
    assert admitted;
    fs.Begin();
    r := fs.Writei(i, src, off);
    GoodFacts(fs.sb, fs.d, fs.ino, fs.owner);
    ReadableAddrs(fs.d, fs.ino);
    assert fs.logged - {} == fs.logged;
    if r >= 0 {
      WrittenBack(old(fs.d), ino0, fs.d, fs.ino, fs.dino, i);
    }
    CommitChanges(fs, log);
  }

  /** dirlink in a transaction: after a crash the directory has the binding, or is as it was. */
  method LinkOp(fs: Fs, log: RedoLog.Log, dp: nat, name: seq<Byte>, inum: nat, ghost c: seq<Byte>) returns (l: Link)
    requires AtRest(fs, log) && log.g.Capacity() >= RedoLog.MAXOPBLOCKS && HoleFree(fs.d, fs.ino)
    requires dp < |fs.ino| && c == Contents(fs.d, fs.ino[dp]) && Dir(c) && NulFree(name)
    modifies fs, log, log.block
    ensures AtRest(fs, log) && HoleFree(fs.d, fs.ino) && l.Returned?
    ensures OthersKept(old(fs.d), old(fs.ino), fs.d, fs.ino, dp)
    ensures Links(c, Contents(fs.d, fs.ino[dp]), name, inum, l.r)
    ensures l == Returned(0) <==>
      && Key(name) !in View(c) && LinkEnd(c) <= MAXBYTES
      && CanReadTo(fs.sb, old(fs.d), old(fs.ino), dp, LinkEnd(c))
    ensures |log.writes| >= |old(log.writes)| && log.writes[..|old(log.writes)|] == old(log.writes)
    ensures Survives(fs.sb, log.g, log.writes, |old(log.writes)|, old(fs.d), old(fs.dino), fs.d, fs.dino)
  {
    hide Stands, Traced, Laid, AllAddrs, Good, Survives, NoHoles, Tables, OthersKept, Contents, HoleFree, AllReadable,
         Links, Dir, View, Key, CanReadTo, LookupStop, LinkEnd, RedoLog.HomeBlocks, RedoLog.Consistent;
    ValidParts(fs);
    var admitted := log.BeginOp();
    assert admitted;
    fs.Begin();
    l := DirLink(fs, dp, name, inum, c);
    ReadableAddrs(fs.d, fs.ino);
    assert fs.logged - {} == fs.logged;
    CommitChanges(fs, log);
  }

  /** itrunc in a transaction; what it logs fits where the free map does. */
  method TruncOp(fs: Fs, log: RedoLog.Log, i: nat)
    requires AtRest(fs, log) && log.g.Capacity() >= fs.sb.datastart - fs.sb.bmapstart + 1 && i < |fs.ino|
    modifies fs, log, log.block
    ensures AtRest(fs, log) && fs.ino == old(fs.ino)[i := Inode(0, NoAddrs())]
    ensures FreesExactly(fs.sb, old(fs.d), fs.d, old(fs.owner), fs.owner, i)
    ensures OthersKept(old(fs.d), old(fs.ino), fs.d, fs.ino, i)
    ensures HoleFree(old(fs.d), old(fs.ino)) ==> HoleFree(fs.d, fs.ino)
    ensures |log.writes| >= |old(log.writes)| && log.writes[..|old(log.writes)|] == old(log.writes)
    ensures Survives(fs.sb, log.g, log.writes, |old(log.writes)|, old(fs.d), old(fs.dino), fs.d, fs.dino)
  {
    hide Stands, Traced, Laid, AllAddrs, Good, Survives, OthersKept, HoleFree, AllReadable, FreesExactly, NoAddrs,
         RedoLog.HomeBlocks, RedoLog.Consistent;
    var admitted := log.BeginOp();
    assert admitted;
    fs.Begin();
    fs.Itrunc(i);
    ValidParts(fs);
    ReadableAddrs(fs.d, fs.ino);
    assert fs.logged - {} == fs.logged;
    CommitChanges(fs, log);
  }

  // One of several writes.
  datatype Call = Call(i: nat, src: seq<Byte>, off: nat)

  ghost predicate Fine(c: Call, n: nat) {
    c.i < n && c.off < WORD && |c.src| <= 3 * BSIZE
  }

  // What it does.
  ghost predicate Done(sb: Super, d: Disk, ino: seq<Inode>, e: Disk, jno: seq<Inode>, c: Call) {
    && AllReadable(d, ino) && AllReadable(e, jno) && c.i < |ino| == |jno|
    && ino[c.i].size <= MAXBYTES && jno[c.i].size <= MAXBYTES
    && if c.off > ino[c.i].size || c.off + |c.src| > MAXBYTES then e == d && jno == ino
       else OthersKept(d, ino, e, jno, c.i) && exists r: nat ::
         && r <= |c.src| && Contents(e, jno[c.i]) == Spliced(Contents(d, ino[c.i]), c.off, Piece(c.src, 0, r))
         && (r == |c.src| <==> HasRoom(sb, d, ino, c))
  }

  // The blocks that the write lacks are free.
  ghost predicate HasRoom(sb: Super, d: Disk, ino: seq<Inode>, c: Call)
    requires AllReadable(d, ino) && c.i < |ino|
  {
    |Needed(Tables(d, ino)[c.i], c.off, c.off + |c.src|)| <= FreeBlocks(sb, d)
  }

  // A state for each write, from the first to the last.
  ghost predicate Chain(sb: Super, calls: seq<Call>, ds: seq<Disk>, inos: seq<seq<Inode>>) {
    && |ds| == |inos| == |calls| + 1
    && forall k :: 0 <= k < |calls| ==> Done(sb, ds[k], inos[k], ds[k + 1], inos[k + 1], calls[k])
  }

  lemma ChainNext(sb: Super, calls: seq<Call>, ds: seq<Disk>, inos: seq<seq<Inode>>, k: nat, d: Disk, ino: seq<Inode>)
    requires k < |calls| && Chain(sb, calls[..k], ds, inos) && Done(sb, ds[k], inos[k], d, ino, calls[k])
    ensures Chain(sb, calls[..k + 1], ds + [d], inos + [ino])
  {
    hide Done;
  }

  lemma CallDone(sb: Super, d: Disk, ino: seq<Inode>, e: Disk, jno: seq<Inode>, c: Call, r: int)
    requires AllReadable(d, ino) && AllReadable(e, jno) && c.i < |ino| == |jno| && ino[c.i].size <= MAXBYTES
             && jno[c.i].size <= MAXBYTES
    requires r <= |c.src| && (r == -1 <==> c.off > ino[c.i].size || c.off + |c.src| > MAXBYTES) && r >= -1
    requires r == -1 ==> e == d && jno == ino
    requires r >= 0 ==>
      && OthersKept(d, ino, e, jno, c.i)
      && Contents(e, jno[c.i]) == Spliced(Contents(d, ino[c.i]), c.off, Piece(c.src, 0, r))
      && (r == |c.src| <==> HasRoom(sb, d, ino, c))
    ensures Done(sb, d, ino, e, jno, c)
  {
    hide OthersKept, Contents, Spliced, Piece, HasRoom;
  }

  /**
   Several operations at once, each a write, in one transaction: as many as begin_op admits.
   After a crash at any block write, all of them are there, or none.
   */
  method GroupOp(fs: Fs, log: RedoLog.Log, calls: seq<Call>) returns (ghost ds: seq<Disk>, ghost inos: seq<seq<Inode>>)
    requires AtRest(fs, log) && HoleFree(fs.d, fs.ino) && calls != []
    requires |calls| * RedoLog.MAXOPBLOCKS <= RedoLog.LOGSIZE && |calls| * RedoLog.MAXOPBLOCKS <= log.g.Capacity()
    requires forall k :: 0 <= k < |calls| ==> Fine(calls[k], |fs.ino|)
    modifies fs, log, log.block
    ensures AtRest(fs, log) && HoleFree(fs.d, fs.ino)
    ensures Chain(fs.sb, calls, ds, inos) && ds[0] == old(fs.d) && inos[0] == old(fs.ino)
    ensures ds[|calls|] == fs.d && inos[|calls|] == fs.ino
    ensures |log.writes| >= |old(log.writes)| && log.writes[..|old(log.writes)|] == old(log.writes)
    ensures Survives(fs.sb, log.g, log.writes, |old(log.writes)|, old(fs.d), old(fs.dino), fs.d, fs.dino)
  {
    hide Stands, Traced, Laid, AllAddrs, Good, Survives, NoHoles, Tables, OthersKept, Contents, Spliced, Piece, Needed,
         FreeBlocks, HoleFree, AllMarked, Aligned, AllReadable, Done, Chain, RedoLog.HomeBlocks, RedoLog.Consistent;
    Admit(log, |calls|);
    fs.Begin();
    ghost var n := |fs.ino|;
    ds, inos := [fs.d], [fs.ino];
    ChainNone(fs.sb, fs.d, fs.ino);
    var k := 0;
    while k < |calls|
      modifies fs
      invariant k <= |calls| && fs.Valid() && |fs.ino| == n && fs.ino == fs.dino && HoleFree(fs.d, fs.ino)
      invariant fs.base == old(fs.d) && fs.baseino == old(fs.dino) && |fs.logged| <= k * RedoLog.MAXOPBLOCKS
      invariant Chain(fs.sb, calls[..k], ds, inos) && |ds| == |inos| == k + 1 && ds[k] == fs.d && inos[k] == fs.ino
      invariant ds[0] == old(fs.d) && inos[0] == old(fs.ino)
    {
      ghost var d1, ino1, l1 := fs.d, fs.ino, fs.logged;
      ValidParts(fs);
      assert Fine(calls[k], n);
      HoleFreeFile(fs.d, fs.ino, calls[k].i);
      var r := fs.Writei(calls[k].i, calls[k].src, calls[k].off);
      ValidParts(fs);
      Grows(l1, fs.logged);
      CallDone(fs.sb, d1, ino1, fs.d, fs.ino, calls[k], r);
      if r >= 0 {
        WrittenBack(d1, ino1, fs.d, fs.ino, fs.dino, calls[k].i);
      }
      ChainNext(fs.sb, calls, ds, inos, k, fs.d, fs.ino);
      ds, inos := ds + [fs.d], inos + [fs.ino];
      k := k + 1;
    }
    assert calls[..k] == calls;
    ValidParts(fs);
    ReadableAddrs(fs.d, fs.ino);
    CommitChanges(fs, log);
  }

  // begin_op of `count` operations, before any of them has logged a block.
  method Admit(log: RedoLog.Log, count: nat)
    requires log.Valid() && log.n == 0 && !log.committing && log.outstanding == 0
    requires count * RedoLog.MAXOPBLOCKS <= RedoLog.LOGSIZE
    modifies log`outstanding
    ensures log.Valid() && log.outstanding == count
  {
    hide RedoLog.Consistent;
    var k := 0;
    while k < count
      invariant k <= count && log.Valid() && log.outstanding == k
    {
      var admitted := log.BeginOp();
      assert admitted;
      k := k + 1;
    }
  }

  lemma ChainNone(sb: Super, d: Disk, ino: seq<Inode>)
    ensures Chain(sb, [], [d], [ino])
  {
  }

  lemma Grows(a: set<nat>, b: set<nat>)
    ensures |b| <= |a| + |b - a|
  {
    assert b <= a + (b - a) && |a + (b - a)| == |a| + |b - a|;
    SubsetCount(b, a + (b - a));
  }

  // Recovery from `m` ends at a file system in which filewrite wrote the first `k` bytes, for
  // some k up to `done`, and nothing else.
  ghost predicate RecoversToPrefix(sb: Super, g: RedoLog.Geometry, m: RedoLog.Image, d: Disk, ino: seq<Inode>, i: nat,
                                   from: nat, src: seq<Byte>, done: nat)
  {
    exists e, jno, k: nat :: k <= done && RecoversTo(sb, g, m, e, jno) && Holds(sb, d, ino, e, jno, i, from, src, k)
  }

  ghost predicate Holds(sb: Super, d: Disk, ino: seq<Inode>, e: Disk, jno: seq<Inode>, i: nat, from: nat,
                        src: seq<Byte>, k: nat)
  {
    && WroteFile(d, ino, e, jno, i, from, src, k) && (HoleFree(d, ino) ==> HoleFree(e, jno))
    && exists owner :: Good(sb, e, jno, owner, {})
  }

  ghost predicate AllPrefixes(sb: Super, g: RedoLog.Geometry, writes: seq<RedoLog.Image>, since: nat, d: Disk,
                              ino: seq<Inode>, i: nat, from: nat, src: seq<Byte>, done: nat)
  {
    forall k :: since <= k < |writes| ==> RecoversToPrefix(sb, g, writes[k], d, ino, i, from, src, done)
  }

  // One transaction more.
  lemma PrefixesGoOn(sb: Super, g: RedoLog.Geometry, before: seq<RedoLog.Image>, writes: seq<RedoLog.Image>,
                     since: nat, d: Disk, ino: seq<Inode>,
                     e: Disk, jno: seq<Inode>, f: Disk, kno: seq<Inode>, i: nat, from: nat, src: seq<Byte>, done: nat,
                     next: nat)
    requires AllPrefixes(sb, g, before, since, d, ino, i, from, src, done) && since <= |before| <= |writes|
    requires writes[..|before|] == before
    requires Survives(sb, g, writes, |before|, e, jno, f, kno) && done <= next
    requires Holds(sb, d, ino, e, jno, i, from, src, done) && Holds(sb, d, ino, f, kno, i, from, src, next)
    ensures AllPrefixes(sb, g, writes, since, d, ino, i, from, src, next)
  {
    hide RecoversTo, Holds;
    forall k | since <= k < |writes|
      ensures RecoversToPrefix(sb, g, writes[k], d, ino, i, from, src, next)
    {
      if k < |before| {
        assert writes[k] == before[k];
        assert RecoversToPrefix(sb, g, before[k], d, ino, i, from, src, done);
      }
    }
  }

  lemma HoldsNow(sb: Super, d: Disk, ino: seq<Inode>, e: Disk, jno: seq<Inode>, owner: map<nat, Slot>, i: nat,
                 from: nat, src: seq<Byte>, k: nat)
    requires WroteFile(d, ino, e, jno, i, from, src, k) && (HoleFree(d, ino) ==> HoleFree(e, jno))
    requires Good(sb, e, jno, owner, {})
    ensures Holds(sb, d, ino, e, jno, i, from, src, k)
  {
    hide Good, WroteFile, HoleFree;
  }

  lemma NoPrefixes(sb: Super, g: RedoLog.Geometry, writes: seq<RedoLog.Image>, d: Disk, ino: seq<Inode>, i: nat,
                   from: nat, src: seq<Byte>)
    ensures AllPrefixes(sb, g, writes, |writes|, d, ino, i, from, src, 0)
  {
  }

  /**
   filewrite with its transactions: a crash at any block write leaves, after recovery, a
   prefix of what is written in the file, and everything else as it was.
   */
  method FileWriteOps(fs: Fs, log: RedoLog.Log, i: nat, src: seq<Byte>, from: nat) returns (ret: int, off: nat)
    requires AtRest(fs, log) && log.g.Capacity() >= RedoLog.MAXOPBLOCKS
    requires i < |fs.ino| && from < WORD && |src| < WORD / 2 && NoHoles(Tables(fs.d, fs.ino)[i], fs.ino[i].size)
    modifies fs, log, log.block
    ensures AtRest(fs, log) && from <= off <= from + |src| && ret == if off == from + |src| then |src| else -1
    ensures WroteFile(old(fs.d), old(fs.ino), fs.d, fs.ino, i, from, src, off - from)
    ensures HoleFree(old(fs.d), old(fs.ino)) ==> HoleFree(fs.d, fs.ino)
    ensures |log.writes| >= |old(log.writes)| && log.writes[..|old(log.writes)|] == old(log.writes)
    ensures AllPrefixes(fs.sb, log.g, log.writes, |old(log.writes)|, old(fs.d), old(fs.ino), i, from, src, off - from)
  {
    hide Stands, Laid, Good, Survives, NoHoles, Tables, OthersKept, Contents, Spliced, Piece, AllReadable, WroteFile,
         AllPrefixes, Holds, HoleFree, Fs.Valid, RedoLog.Log.Valid;
    ghost var d0, ino0, w0 := fs.d, fs.ino, log.writes;
    ValidParts(fs);
    WroteFileBegins(d0, ino0, i, from, src);
    NoPrefixes(fs.sb, log.g, w0, d0, ino0, i, from, src);
    HoldsNow(fs.sb, d0, ino0, d0, ino0, fs.owner, i, from, src, 0);
    var max := (RedoLog.MAXOPBLOCKS - 1 - 1 - 2) / 2 * BSIZE;
    var done := 0;
    off := from;
    while done < |src|
      invariant AtRest(fs, log) && |fs.ino| == |ino0| && done <= |src| && off == from + done
      invariant AllReadable(fs.d, fs.ino)
      invariant fs.ino[i].size <= MAXBYTES && NoHoles(Tables(fs.d, fs.ino)[i], fs.ino[i].size)
      invariant WroteFile(d0, ino0, fs.d, fs.ino, i, from, src, done)
      invariant Holds(fs.sb, d0, ino0, fs.d, fs.ino, i, from, src, done)
      invariant HoleFree(d0, ino0) ==> HoleFree(fs.d, fs.ino)
      invariant done > 0 ==> from <= ino0[i].size
      invariant done == 0 ==> fs.d == d0 && fs.ino == ino0
      invariant |log.writes| >= |w0| && log.writes[..|w0|] == w0
      invariant AllPrefixes(fs.sb, log.g, log.writes, |w0|, d0, ino0, i, from, src, done)
    {
      ghost var d1, ino1, w1 := fs.d, fs.ino, log.writes;
      var n1 := if |src| - done > max then max else |src| - done;
      if done > 0 {
        WroteFileReaches(d0, ino0, d1, ino1, i, from, src, done);
      }
      var r := WriteOp(fs, log, i, Piece(src, done, n1), off);
      ValidParts(fs);
      if r > 0 {
        off := off + r;
      }
      if r >= 0 {
        WroteFileGoesOn(d0, ino0, d1, ino1, fs.d, fs.ino, i, from, src, done, n1, r);
      }
      HoldsNow(fs.sb, d0, ino0, fs.d, fs.ino, fs.owner, i, from, src, off - from);
      PrefixesGoOn(fs.sb, log.g, w1, log.writes, |w0|, d0, ino0, d1, ino1, fs.d, fs.ino, i, from, src, done,
                   off - from);
      if r != n1 {
        break;
      }
      done := done + r;
    }
    ret := if done == |src| then |src| else -1;
  }
}
