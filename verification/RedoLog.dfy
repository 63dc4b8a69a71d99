/**
 The redo log of labo2/kernel/log.c.

 A disk is a sequence of blocks, a block is a sequence of 256 words.  `bwrite` is one
 atomic block write, and a crash may strike between any two of them: it leaves the disk
 as the last completed write left it and loses everything in memory.
 */
module RedoLog {
  const MAXOPBLOCKS: nat := 10
  const LOGSIZE: nat := 30

  const WORDS: nat := 256

  type Block = b: seq<int> | |b| == WORDS witness seq(WORDS, i => 0)
  type Image = seq<Block>

  // The on-disk log: a header block at `start`, then `size - 1` blocks of data.
  datatype Geometry = Geometry(start: nat, size: nat) {
    predicate Fits(d: Image) {
      1 <= size && start + size <= |d|
    }

    predicate InLog(b: int) {
      start <= b < start + size
    }

    // The largest transaction that log_write accepts.
    function Capacity(): int {
      if size - 1 < LOGSIZE then size - 1 else LOGSIZE
    }
  }

  predicate Distinct(s: seq<int>) {
    forall i, j :: 0 <= i < j < |s| ==> s[i] != s[j]
  }

  // Block numbers that a transaction may log: distinct, on the disk, outside the log.
  predicate HomeBlocks(g: Geometry, total: nat, s: seq<int>) {
    && |s| <= g.Capacity()
    && Distinct(s)
    && forall i :: 0 <= i < |s| ==> 0 <= s[i] < total && !g.InLog(s[i])
  }

  // ---------- What is on the disk ----------

  // A header that write_head may have left behind.
  predicate GoodHeader(g: Geometry, d: Image) {
    && g.Fits(d)
    && 0 <= d[g.start][0] <= g.Capacity()
    && HomeBlocks(g, |d|, d[g.start][1..1 + d[g.start][0]])
  }

  function Logged(g: Geometry, d: Image): (s: seq<int>)
    requires GoodHeader(g, d)
    ensures HomeBlocks(g, |d|, s)
  {
    d[g.start][1..1 + d[g.start][0]]
  }

  // The header block that write_head stores over the old one.
  function Header(was: Block, s: seq<int>): Block
    requires |s| <= LOGSIZE
  {
    [|s|] + s + was[1 + |s|..]
  }

  function IndexOf(s: seq<int>, b: int): (i: nat)
    requires b in s
    ensures i < |s| && s[i] == b
  {
    if s[0] == b then 0 else 1 + IndexOf(s[1..], b)
  }

  // The disk once the first `k` logged blocks `s` are copied from the log to their homes.
  function Installed(g: Geometry, d: Image, s: seq<int>, k: nat): (e: Image)
    requires g.Fits(d) && HomeBlocks(g, |d|, s) && k <= |s|
    ensures |e| == |d|
  {
    seq(|d|, b requires 0 <= b < |d| => if b in s[..k] then d[g.start + 1 + IndexOf(s, b)] else d[b])
  }

  // The disk after `k` of the writes that recover_from_log makes.
  function RecoveryAt(g: Geometry, d: Image, k: nat): (e: Image)
    requires GoodHeader(g, d)
    ensures |e| == |d|
  {
    var s := Logged(g, d);
    if k <= |s| then Installed(g, d, s, k)
    else Installed(g, d, s, |s|)[g.start := Header(d[g.start], [])]
  }

  // The disk that an undisturbed recovery leaves.
  function Recovered(g: Geometry, d: Image): (e: Image)
    requires GoodHeader(g, d)
    ensures |e| == |d|
  {
    RecoveryAt(g, d, |Logged(g, d)| + 1)
  }

  // The disk after recoveries that crash after crashes[0], crashes[1], ... writes.
  function AfterCrashes(g: Geometry, d: Image, crashes: seq<nat>): (e: Image)
    requires GoodHeader(g, d)
    ensures |e| == |d| && GoodHeader(g, e)
    decreases |crashes|
  {
    if crashes == [] then d
    else
      RecoveryKeepsHeader(g, d, crashes[0]);
      AfterCrashes(g, RecoveryAt(g, d, crashes[0]), crashes[1..])
  }

  // The disk once the first `k` cached blocks are copied into the log.
  function Copied(g: Geometry, d: Image, cached: Image, s: seq<int>, k: nat): (e: Image)
    requires g.Fits(d) && HomeBlocks(g, |d|, s) && |cached| == |d| && k <= |s|
    ensures |e| == |d|
  {
    seq(|d|, b requires 0 <= b < |d| => if g.start < b <= g.start + k then cached[s[b - g.start - 1]] else d[b])
  }

  // The disk after `k` of the 2n+2 writes that commit() makes for a transaction `s`.
  function CommitAt(g: Geometry, d: Image, cached: Image, s: seq<int>, k: nat): (e: Image)
    requires g.Fits(d) && HomeBlocks(g, |d|, s) && |cached| == |d|
    ensures |e| == |d|
  {
    var n := |s|;
    var logged := Copied(g, d, cached, s, if k <= n then k else n);
    if k <= n then logged
    else
      var headed := logged[g.start := Header(d[g.start], s)];
      if k <= 2 * n + 1 then Installed(g, headed, s, k - n - 1)
      else Installed(g, headed, s, n)[g.start := Header(headed[g.start], [])]
  }

  // The disks that a write-by-write description `at` the first `k` writes goes through.
  function CopyWrites(g: Geometry, d: Image, cached: Image, s: seq<int>, k: nat): (w: seq<Image>)
    requires g.Fits(d) && HomeBlocks(g, |d|, s) && |cached| == |d| && k <= |s|
    ensures |w| == k && forall i :: 0 <= i < k ==> w[i] == Copied(g, d, cached, s, i + 1)
  {
    if k == 0 then [] else CopyWrites(g, d, cached, s, k - 1) + [Copied(g, d, cached, s, k)]
  }

  function InstallWrites(g: Geometry, d: Image, s: seq<int>, k: nat): (w: seq<Image>)
    requires g.Fits(d) && HomeBlocks(g, |d|, s) && k <= |s|
    ensures |w| == k && forall i :: 0 <= i < k ==> w[i] == Installed(g, d, s, i + 1)
  {
    if k == 0 then [] else InstallWrites(g, d, s, k - 1) + [Installed(g, d, s, k)]
  }

  // The disks that commit() and recover_from_log() go through, one for each write.
  function CommitWrites(g: Geometry, d: Image, cached: Image, s: seq<int>): (w: seq<Image>)
    requires g.Fits(d) && HomeBlocks(g, |d|, s) && |cached| == |d|
    ensures |w| == 2 * |s| + 2
    ensures forall k :: 1 <= k <= |w| ==> w[k - 1] == CommitAt(g, d, cached, s, k)
  {
    var headed := Copied(g, d, cached, s, |s|)[g.start := Header(d[g.start], s)];
    var cleared := Installed(g, headed, s, |s|)[g.start := Header(headed[g.start], [])];
    CopyWrites(g, d, cached, s, |s|) + [headed] + InstallWrites(g, headed, s, |s|) + [cleared]
  }

  function RecoveryWrites(g: Geometry, d: Image): (w: seq<Image>)
    requires GoodHeader(g, d)
    ensures |w| == |Logged(g, d)| + 1
    ensures forall k :: 1 <= k <= |w| ==> w[k - 1] == RecoveryAt(g, d, k)
  {
    InstallWrites(g, d, Logged(g, d), |Logged(g, d)|) + [Recovered(g, d)]
  }

  // Two disks agree on every block outside the log.
  predicate SameHome(g: Geometry, d: Image, e: Image) {
    |d| == |e| && forall b :: 0 <= b < |d| && !g.InLog(b) ==> d[b] == e[b]
  }

  // `e` is `d` with the blocks of `s`, and no others outside the log, taken from `cached`.
  predicate Updated(g: Geometry, d: Image, cached: Image, s: seq<int>, e: Image)
    requires |cached| == |d|
  {
    && |e| == |d|
    && forall b :: 0 <= b < |d| && !g.InLog(b) ==> e[b] == if b in s then cached[b] else d[b]
  }

  // ---------- Properties of recovery ----------

  // One more install is one more block write.
  lemma InstallNext(g: Geometry, d: Image, s: seq<int>, k: nat)
    requires g.Fits(d) && HomeBlocks(g, |d|, s) && k < |s|
    ensures Installed(g, d, s, k)[g.start + 1 + k] == d[g.start + 1 + k]
    ensures Installed(g, d, s, k + 1) == Installed(g, d, s, k)[s[k] := d[g.start + 1 + k]]
  {
    assert s[..k + 1] == s[..k] + [s[k]];
    assert IndexOf(s, s[k]) == k;
  }

  // Installing again after a partial install changes nothing: the copies are idempotent.
  lemma InstallAgain(g: Geometry, d: Image, s: seq<int>, k: nat)
    requires g.Fits(d) && HomeBlocks(g, |d|, s) && k <= |s|
    ensures Installed(g, Installed(g, d, s, k), s, |s|) == Installed(g, d, s, |s|)
  {
    assert s[..|s|] == s;
  }

  // Installing leaves the header alone.
  lemma InstallKeepsHeader(g: Geometry, d: Image, s: seq<int>, k: nat)
    requires g.Fits(d) && HomeBlocks(g, |d|, s) && k <= |s|
    ensures Installed(g, d, s, k)[g.start] == d[g.start]
  {
  }

  lemma RecoveryKeepsHeader(g: Geometry, d: Image, k: nat)
    requires GoodHeader(g, d)
    ensures GoodHeader(g, RecoveryAt(g, d, k))
    ensures Logged(g, RecoveryAt(g, d, k)) == if k <= |Logged(g, d)| then Logged(g, d) else []
  {
    hide Installed;
    var s := Logged(g, d);
    InstallKeepsHeader(g, d, s, if k <= |s| then k else |s|);
  }

  // A recovery that is cut short after any number of writes can be restarted.
  lemma RecoveryRestarts(g: Geometry, d: Image, k: nat)
    requires GoodHeader(g, d)
    ensures GoodHeader(g, RecoveryAt(g, d, k))
    ensures SameHome(g, Recovered(g, RecoveryAt(g, d, k)), Recovered(g, d))
  {
    RecoveryKeepsHeader(g, d, k);
    var s := Logged(g, d);
    if k <= |s| {
      InstallAgain(g, d, s, k);
    } else {
      NothingToInstall(g, Recovered(g, d));
    }
  }

  lemma NothingToInstall(g: Geometry, d: Image)
    requires GoodHeader(g, d) && Logged(g, d) == []
    ensures SameHome(g, Recovered(g, d), d)
  {
  }

  lemma {:induction false} CrashesDuringRecovery(g: Geometry, d: Image, crashes: seq<nat>)
    requires GoodHeader(g, d)
    ensures SameHome(g, Recovered(g, AfterCrashes(g, d, crashes)), Recovered(g, d))
    decreases |crashes|
  {
    hide Recovered, RecoveryAt, GoodHeader;
    if crashes != [] {
      RecoveryRestarts(g, d, crashes[0]);
      CrashesDuringRecovery(g, RecoveryAt(g, d, crashes[0]), crashes[1..]);
    }
  }

  // ---------- Properties of commit ----------

  // Before the header is written, recovery finds an empty log and keeps the old state.
  lemma BeforeHeader(g: Geometry, d: Image, cached: Image, s: seq<int>, k: nat)
    requires GoodHeader(g, d) && Logged(g, d) == []
    requires HomeBlocks(g, |d|, s) && |cached| == |d| && k <= |s|
    ensures GoodHeader(g, CommitAt(g, d, cached, s, k))
    ensures Logged(g, CommitAt(g, d, cached, s, k)) == []
    ensures SameHome(g, CommitAt(g, d, cached, s, k), d)
  {
  }

  // The disk once the header is written.
  function Headed(g: Geometry, d: Image, cached: Image, s: seq<int>): (e: Image)
    requires g.Fits(d) && HomeBlocks(g, |d|, s) && |cached| == |d|
    ensures |e| == |d|
  {
    Copied(g, d, cached, s, |s|)[g.start := Header(d[g.start], s)]
  }

  lemma HeadedHeader(g: Geometry, d: Image, cached: Image, s: seq<int>)
    requires g.Fits(d) && HomeBlocks(g, |d|, s) && |cached| == |d|
    ensures GoodHeader(g, Headed(g, d, cached, s))
    ensures Logged(g, Headed(g, d, cached, s)) == s
  {
    hide Copied;
    assert Header(d[g.start], s)[1..1 + |s|] == s;
  }

  lemma HeadedInstalls(g: Geometry, d: Image, cached: Image, s: seq<int>)
    requires g.Fits(d) && HomeBlocks(g, |d|, s) && |cached| == |d|
    ensures Updated(g, d, cached, s, Installed(g, Headed(g, d, cached, s), s, |s|))
  {
    assert s[..|s|] == s;
  }

  // From the header write on, recovery installs the whole transaction.
  lemma AfterHeader(g: Geometry, d: Image, cached: Image, s: seq<int>, k: nat)
    requires g.Fits(d) && HomeBlocks(g, |d|, s) && |cached| == |d| && k > |s|
    ensures GoodHeader(g, CommitAt(g, d, cached, s, k))
    ensures Updated(g, d, cached, s, Recovered(g, CommitAt(g, d, cached, s, k)))
    ensures k > 2 * |s| + 1 ==>
      Logged(g, CommitAt(g, d, cached, s, k)) == [] && Updated(g, d, cached, s, CommitAt(g, d, cached, s, k))
  {
    hide Installed, Copied, HomeBlocks, GoodHeader;
    var headed := Headed(g, d, cached, s);
    HeadedHeader(g, d, cached, s);
    HeadedInstalls(g, d, cached, s);
    RecoveryRestarts(g, headed, k - |s| - 1);
    RecoveryKeepsHeader(g, headed, k - |s| - 1);
  }

  /**
   Crash atomicity.  The machine crashes after `k` of the writes of a commit; the recovery
   that follows crashes again and again, after crashes[0], crashes[1], ... of its writes;
   then one recovery runs to its end.  Outside the log the disk is as before the
   transaction, or holds all of its blocks, and which of the two is decided by whether the
   first header write reached the disk.
   */
  lemma {:induction false} CrashAtomicity(g: Geometry, d: Image, cached: Image, s: seq<int>, k: nat, crashes: seq<nat>)
    requires GoodHeader(g, d) && Logged(g, d) == []
    requires HomeBlocks(g, |d|, s) && |cached| == |d|
    ensures var crashed := CommitAt(g, d, cached, s, k);
            GoodHeader(g, crashed) &&
            var end := Recovered(g, AfterCrashes(g, crashed, crashes));
            && (k <= |s| ==> SameHome(g, end, d))
            && (k > |s| ==> Updated(g, d, cached, s, end))
            && GoodHeader(g, end) && Logged(g, end) == []
  {
    hide CommitAt, RecoveryAt, HomeBlocks, Logged;
    var crashed := CommitAt(g, d, cached, s, k);
    if k <= |s| {
      BeforeHeader(g, d, cached, s, k);
      NothingToInstall(g, crashed);
    } else {
      AfterHeader(g, d, cached, s, k);
    }
    CrashesDuringRecovery(g, crashed, crashes);
    var e := AfterCrashes(g, crashed, crashes);
    RecoveryKeepsHeader(g, e, |Logged(g, e)| + 1);
  }

  // Blocks other than those of the transaction agree on disk and in the cache after the copy.
  lemma CopyAgrees(g: Geometry, d: Image, cached: Image, s: seq<int>)
    requires Consistent(g, d, cached, s)
    ensures forall b :: 0 <= b < |d| && b !in s ==>
      Copied(g, cached, cached, s, |s|)[b] == Copied(g, d, cached, s, |s|)[b]
    ensures Copied(g, cached, cached, s, |s|)[g.start] == d[g.start]
  {
    assert g.start !in s;
  }

  // Installing then makes them agree everywhere.
  lemma InstallAgrees(g: Geometry, d: Image, e: Image, s: seq<int>)
    requires g.Fits(d) && HomeBlocks(g, |d|, s) && |e| == |d|
    requires forall b :: 0 <= b < |d| && b !in s ==> d[b] == e[b]
    ensures forall b :: g.start < b <= g.start + |s| ==> d[b] == e[b]
    ensures Installed(g, d, s, |s|) == Installed(g, e, s, |s|)
  {
    assert s[..|s|] == s;
  }

  // Unpinning one block at a time.
  lemma PinsShrink(s: seq<int>, k: nat)
    requires k < |s|
    ensures multiset(s[k + 1..]) == multiset(s[k..]) - multiset{s[k]}
  {
    assert s[k..] == [s[k]] + s[k + 1..];
  }

  // Outside commits and recoveries the log on disk is empty, and only blocks of the open
  // transaction `s` may differ between the cache and the disk.
  ghost predicate Consistent(g: Geometry, disk: Image, latest: Image, s: seq<int>) {
    && |latest| == |disk|
    && HomeBlocks(g, |disk|, s)
    && GoodHeader(g, disk) && Logged(g, disk) == []
    && forall b :: 0 <= b < |disk| && b !in s ==> latest[b] == disk[b]
  }

  lemma ConsistentFacts(g: Geometry, disk: Image, latest: Image, s: seq<int>)
    requires Consistent(g, disk, latest, s)
    ensures |latest| == |disk| && g.Fits(disk) && HomeBlocks(g, |disk|, s) && latest[g.start] == disk[g.start]
    ensures s == [] ==> latest == disk && SameHome(g, disk, latest)
  {
    assert g.start !in s;
  }

  // The end of a commit: cache and disk agree, and hold what the cache held.
  lemma CommitEnds(g: Geometry, d: Image, cached: Image, s: seq<int>)
    requires Consistent(g, d, cached, s)
    ensures |cached| == |d| && g.Fits(d) && HomeBlocks(g, |d|, s)
    ensures var end := CommitAt(g, d, cached, s, 2 * |s| + 2);
            Consistent(g, end, end, []) && SameHome(g, end, cached)
  {
    hide CommitAt;
    AfterHeader(g, d, cached, s, 2 * |s| + 2);
  }

  lemma ConsistentAfterWrite(g: Geometry, disk: Image, latest: Image, s: seq<int>, b: int, data: Block)
    requires Consistent(g, disk, latest, s) && |s| < g.Capacity()
    requires 0 <= b < |disk| && !g.InLog(b)
    ensures b in s ==> Consistent(g, disk, latest[b := data], s)
    ensures b !in s ==> Consistent(g, disk, latest[b := data], s + [b])
    ensures multiset(s + [b]) == multiset(s) + multiset{b}
  {
  }

  // Where install_trans is after `k` blocks: cache and disk advance together.
  ghost predicate Installing(g: Geometry, d: Image, l: Image, s: seq<int>, k: nat, disk: Image, latest: Image,
                             w: seq<Image>)
    requires g.Fits(d) && HomeBlocks(g, |d|, s) && |l| == |d| && k <= |s|
  {
    && disk == Installed(g, d, s, k)
    && latest == Installed(g, l, s, k)
    && w == InstallWrites(g, d, s, k)
  }

  lemma InstallStart(g: Geometry, d: Image, l: Image, s: seq<int>)
    requires g.Fits(d) && HomeBlocks(g, |d|, s) && |l| == |d|
    ensures Installing(g, d, l, s, 0, d, l, []) && s[0..] == s
  {
  }

  lemma InstallStep(g: Geometry, d: Image, l: Image, s: seq<int>, k: nat, disk: Image, latest: Image, w: seq<Image>)
    requires g.Fits(d) && HomeBlocks(g, |d|, s) && |l| == |d| && k < |s|
    requires l[g.start + 1 + k] == d[g.start + 1 + k]
    requires Installing(g, d, l, s, k, disk, latest, w)
    ensures |disk| == |latest| == |d| && 0 <= s[k] < |d| && g.start + 1 + k < |d|
    ensures var data := latest[g.start + 1 + k];
            var e := disk[s[k] := data];
            Installing(g, d, l, s, k + 1, e, latest[s[k] := data], w + [e])
  {
    hide Installed;
    InstallNext(g, d, s, k);
    InstallNext(g, l, s, k);
  }

  lemma InstallEnd(g: Geometry, d: Image, l: Image, s: seq<int>, disk: Image, latest: Image, w: seq<Image>)
    requires g.Fits(d) && HomeBlocks(g, |d|, s) && |l| == |d|
    requires Installing(g, d, l, s, |s|, disk, latest, w)
    ensures disk == Installed(g, d, s, |s|) && latest == Installed(g, l, s, |s|)
    ensures w == InstallWrites(g, d, s, |s|) && multiset(s[|s|..]) == multiset{}
  {
  }

  // ---------- The code ----------

  /**
   The in-memory log.  `latest[b]` is what bread(b) returns, the buffer cache seen as a
   plain map; `disk` is the device; `writes` lists every disk the device went through.
   */
  class Log {
    const g: Geometry
    var disk: Image
    var latest: Image
    ghost var writes: seq<Image>
    var n: nat              // log.lh.n
    const block: array<int> // log.lh.block
    var outstanding: nat
    var committing: bool
    var pinned: multiset<int>

    // What holds of the memory and the disk at every moment.
    ghost predicate Shape()
      reads this
    {
      && g.Fits(disk)
      && |latest| == |disk|
      && block.Length == LOGSIZE
      && n <= LOGSIZE
    }

    // What holds whenever no commit or recovery is under way.
    ghost predicate Valid()
      reads this, block
    {
      && Shape()
      && Consistent(g, disk, latest, block[..n])
      && pinned == multiset(block[..n])
    }

    // The machine boots with an arbitrary disk whose header some write_head wrote.
    constructor Boot(g: Geometry, d: Image)
      requires GoodHeader(g, d)
      ensures Shape() && this.g == g && disk == latest == d && writes == []
      ensures fresh(block) && pinned == multiset{} && outstanding == 0 && !committing
    {
      this.g := g;
      disk, latest, writes := d, d, [];
      n := 0;
      block := new int[LOGSIZE](i => 0);
      outstanding, committing := 0, false;
      pinned := multiset{};
    }

    // bread, change the whole block, bwrite.
    method Bwrite(b: int, data: Block)
      requires Shape() && 0 <= b < |disk|
      modifies this`disk, this`latest, this`writes
      ensures disk == old(disk)[b := data]
      ensures latest == old(latest)[b := data]
      ensures writes == old(writes) + [disk]
    {
      latest := latest[b := data];
      disk := disk[b := data];
      writes := writes + [disk];
    }

    method WriteLog()
      requires Shape() && HomeBlocks(g, |disk|, block[..n])
      modifies this`disk, this`latest, this`writes
      ensures Shape() && |disk| == |old(disk)|
      ensures disk == Copied(g, old(disk), old(latest), block[..n], n)
      ensures latest == Copied(g, old(latest), old(latest), block[..n], n)
      ensures writes == old(writes) + CopyWrites(g, old(disk), old(latest), block[..n], n)
    {
      ghost var d0, l0, s := disk, latest, block[..n];
      for tail := 0 to n
        invariant Shape() && |disk| == |d0|
        invariant disk == Copied(g, d0, l0, s, tail)
        invariant latest == Copied(g, l0, l0, s, tail)
        invariant writes == old(writes) + CopyWrites(g, d0, l0, s, tail)
      {
        Bwrite(g.start + tail + 1, latest[block[tail]]);
      }
    }

    method WriteHead()
      requires Shape()
      modifies this`disk, this`latest, this`writes
      ensures Shape()
      ensures disk == old(disk)[g.start := Header(old(latest)[g.start], block[..n])]
      ensures latest == old(latest)[g.start := disk[g.start]]
      ensures writes == old(writes) + [disk]
    {
      var hb := latest[g.start];
      hb := hb[0 := n];
      for i := 0 to n
        invariant |hb| == WORDS
        invariant hb == [n] + block[..i] + latest[g.start][1 + i..]
      {
        hb := hb[1 + i := block[i]];
      }
      Bwrite(g.start, hb);
    }

    method InstallTrans(recovering: bool)
      requires Shape() && HomeBlocks(g, |disk|, block[..n])
      requires forall b :: g.start < b <= g.start + n ==> latest[b] == disk[b]
      requires !recovering ==> pinned == multiset(block[..n])
      modifies this`disk, this`latest, this`writes, this`pinned
      ensures Shape() && |disk| == |old(disk)|
      ensures disk == Installed(g, old(disk), block[..n], n)
      ensures latest == Installed(g, old(latest), block[..n], n)
      ensures writes == old(writes) + InstallWrites(g, old(disk), block[..n], n)
      ensures pinned == if recovering then old(pinned) else multiset{}
    {
      hide HomeBlocks, Installing;
      ghost var d0, l0, s, p0, w0 := disk, latest, block[..n], pinned, writes;
      ghost var w: seq<Image> := [];
      InstallStart(g, d0, l0, s);
      for tail := 0 to n
        invariant Shape() && |disk| == |d0|
        invariant Installing(g, d0, l0, s, tail, disk, latest, w) && writes == w0 + w
        invariant pinned == if recovering then p0 else multiset(s[tail..])
      {
        InstallStep(g, d0, l0, s, tail, disk, latest, w);
        PinsShrink(s, tail);
        Bwrite(block[tail], latest[g.start + tail + 1]);
        w := w + [disk];
        if !recovering {
          Bunpin(block[tail]);
        }
      }
      InstallEnd(g, d0, l0, s, disk, latest, w);
    }

    method Bunpin(b: int)
      modifies this`pinned
      ensures pinned == old(pinned) - multiset{b}
    {
      pinned := pinned - multiset{b};
    }

    method ReadHead()
      requires Shape() && GoodHeader(g, latest)
      modifies this`n, block
      ensures Shape() && block[..n] == Logged(g, latest)
    {
      var lh := latest[g.start];
      n := lh[0];
      for i := 0 to n
        invariant n == lh[0] && block[..i] == lh[1..1 + i]
      {
        block[i] := lh[1 + i];
      }
    }

    /** Boot: whatever a crash left on the disk, recovery ends in a state ready for use. */
    method RecoverFromLog()
      requires Shape() && latest == disk && GoodHeader(g, disk) && pinned == multiset{}
      modifies this`disk, this`latest, this`writes, this`n, this`pinned, block
      ensures Valid() && n == 0 && latest == disk
      ensures disk == Recovered(g, old(disk))
      ensures writes == old(writes) + RecoveryWrites(g, old(disk))
    {
      hide Installed, HomeBlocks;
      ghost var d0 := disk;
      ReadHead();
      ghost var s := block[..n];
      InstallKeepsHeader(g, d0, s, n);
      InstallTrans(true);
      n := 0;
      WriteHead();
      RecoveryKeepsHeader(g, d0, |s| + 1);
    }

    /**
     commit(): the disks it goes through are those of CommitAt, so CrashAtomicity speaks of
     every one of them.
     */
    method Commit()
      requires Valid()
      modifies this`disk, this`latest, this`writes, this`n, this`pinned
      ensures Valid() && n == 0 && latest == disk
      ensures SameHome(g, disk, old(latest))
      ensures old(n) == 0 ==> disk == old(disk) && writes == old(writes)
      ensures old(n) > 0 ==> disk == CommitAt(g, old(disk), old(latest), old(block[..n]), 2 * old(n) + 2)
      ensures old(n) > 0 ==> writes == old(writes) + CommitWrites(g, old(disk), old(latest), old(block[..n]))
    {
      hide Installed, Copied, CopyWrites, InstallWrites, HomeBlocks, GoodHeader, Header, Consistent, SameHome;
      ghost var d0, l0, s := disk, latest, block[..n];
      ConsistentFacts(g, d0, l0, s);
      CommitEnds(g, d0, l0, s);
      if n > 0 {
        WriteLog();
        CopyAgrees(g, d0, l0, s);
        WriteHead();
        InstallAgrees(g, disk, latest, s);
        InstallKeepsHeader(g, disk, s, n);
        InstallTrans(false);
        n := 0;
        WriteHead();
      }
    }

    // One pass through begin_op's loop: false means that the caller goes to sleep.
    method BeginOp() returns (admitted: bool)
      modifies this`outstanding
      ensures admitted == (!committing && n + (old(outstanding) + 1) * MAXOPBLOCKS <= LOGSIZE)
      ensures outstanding == old(outstanding) + if admitted then 1 else 0
    {
      if committing {
        admitted := false;
      } else if n + (outstanding + 1) * MAXOPBLOCKS > LOGSIZE {
        admitted := false;
      } else {
        outstanding := outstanding + 1;
        admitted := true;
      }
    }

    // The caller's change to a block it read, then log_write.
    method LogWrite(b: int, data: Block)
      requires Valid() && outstanding >= 1
      requires n < g.Capacity()
      requires 0 <= b < |disk| && !g.InLog(b)
      modifies this`latest, this`n, this`pinned, block
      ensures Valid()
      ensures latest == old(latest)[b := data]
      ensures block[..n] == old(block[..n]) + if b in old(block[..n]) then [] else [b]
    {
      hide Consistent;
      ConsistentAfterWrite(g, disk, latest, block[..n], b, data);
      latest := latest[b := data];
      var i := FindLogged(b);
      ghost var s := block[..n];
      block[i] := b;
      if i == n {
        pinned := pinned + multiset{b};
        n := n + 1;
        assert block[..n] == s + [b];
      } else {
        assert block[..n] == s;
      }
    }

    // log_write's search for the block in the open transaction.
    method FindLogged(b: int) returns (i: nat)
      requires Shape()
      ensures i <= n && b !in block[..i] && (i < n ==> block[i] == b)
      ensures b in block[..n] <==> i < n
    {
      i := 0;
      while i < n && block[i] != b
        invariant i <= n && b !in block[..i]
      {
        i := i + 1;
      }
      assert i < n ==> b == block[..n][i];
    }

    /**
     end_op: the last operation out commits.  Until then the disk does not change; then
     every home block of the disk becomes what the operations left in the cache.
     */
    method EndOp()
      requires Valid() && outstanding >= 1 && !committing
      modifies this`disk, this`latest, this`writes, this`n, this`pinned, this`outstanding, this`committing
      ensures Valid() && !committing && outstanding == old(outstanding) - 1
      ensures SameHome(g, latest, old(latest))
      ensures outstanding > 0 || old(n) == 0 ==> disk == old(disk) && writes == old(writes)
      ensures outstanding > 0 ==> n == old(n) && latest == old(latest) && pinned == old(pinned)
      ensures outstanding == 0 ==> n == 0 && SameHome(g, disk, old(latest))
      ensures outstanding == 0 && old(n) > 0 ==>
        writes == old(writes) + CommitWrites(g, old(disk), old(latest), old(block[..n]))
    {
      hide CommitAt, CommitWrites;
      outstanding := outstanding - 1;
      if outstanding == 0 {
        committing := true;
        Commit();
        committing := false;
      }
    }
  }
}
