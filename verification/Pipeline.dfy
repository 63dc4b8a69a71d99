/** execute_pipeline and execute_scommand of kickstart/execute.c, over descriptor tables as
  * kickstart/tests/syscall_mock.c gives them: the lowest closed descriptor is the next one, pipe()
  * takes the read end first, and fork() copies the table. */
module Pipeline {
  import opened Options

  datatype File = Closed | Dev(name: string) | PipeEnd(id: nat, write: bool) | Opened(path: string, flags: int)

  datatype Command = Command(args: seq<string>, redirIn: Option<string>, redirOut: Option<string>)

  const STDIN := 0
  const STDOUT := 1
  const O_RDONLY := 0x000
  const WRITE_FLAGS := 0x241 // O_WRONLY | O_CREAT | O_TRUNC

  // ---------- Descriptor tables ----------

  function LowestFrom(t: seq<File>, i: nat): (fd: int)
    requires i <= |t|
    ensures fd == -1 ==> forall j :: i <= j < |t| ==> t[j] != Closed
    ensures fd != -1 ==> i <= fd < |t| && t[fd] == Closed && forall j :: i <= j < fd ==> t[j] != Closed
    decreases |t| - i
  {
    if i == |t| then -1 else if t[i] == Closed then i else LowestFrom(t, i + 1)
  }

  // The lowest closed descriptor, or -1.
  function Lowest(t: seq<File>): (fd: int)
    ensures fd == -1 ==> Closed !in t
    ensures fd != -1 ==> 0 <= fd < |t| && t[fd] == Closed && Closed !in t[..fd]
  {
    LowestFrom(t, 0)
  }

  function FreeSet(t: seq<File>): set<int> {
    set i | 0 <= i < |t| && t[i] == Closed
  }

  function Free(t: seq<File>): nat {
    |FreeSet(t)|
  }

  lemma TakingOne(t: seq<File>, fd: int, f: File)
    requires 0 <= fd < |t| && t[fd] == Closed && f != Closed
    ensures Free(t[fd := f]) == Free(t) - 1
  {
    assert FreeSet(t[fd := f]) == FreeSet(t) - {fd};
  }

  lemma FoundIffFree(t: seq<File>)
    ensures Lowest(t) != -1 <==> Free(t) > 0
  {
    if Lowest(t) != -1 {
      assert Lowest(t) in FreeSet(t);
    } else {
      assert FreeSet(t) == {};
    }
  }

  // Both ends of a new pipe, at `rd` and `wr`.
  function WithPipe(t: seq<File>, rd: int, wr: int, id: nat): (r: seq<File>)
    requires 0 <= rd < |t| && 0 <= wr < |t|
    ensures |r| == |t|
  {
    t[rd := PipeEnd(id, false)][wr := PipeEnd(id, true)]
  }

  class Descriptors {
    const table: array<File>
    var pipes: nat

    // fork: the child's copy
    constructor (from: Descriptors)
      ensures fresh(table) && table[..] == from.table[..] && pipes == from.pipes
    {
      var n := from.table.Length;
      var copy := new File[n](i requires 0 <= i < n reads from.table => from.table[i]);
      table, pipes := copy, from.pipes;
      new;
      assert table[..] == from.table[..];
    }

    // mock_fd_lookup
    method Lookup() returns (fd: int)
      ensures fd == Lowest(table[..])
    {
      fd := 0;
      while fd < table.Length && table[fd] != Closed
        invariant 0 <= fd <= table.Length && LowestFrom(table[..], fd) == Lowest(table[..])
      {
        fd := fd + 1;
      }
      if fd >= table.Length {
        fd := -1;
      }
    }

    // mock_open; `exists` says whether the path can be opened
    method Open(path: string, flags: int, openable: bool) returns (fd: int)
      modifies table
      ensures fd == if openable then Lowest(old(table[..])) else -1
      ensures table[..] == if fd == -1 then old(table[..]) else old(table[..])[fd := Opened(path, flags)]
    {
      if !openable {
        return -1;
      }
      fd := Lookup();
      if fd >= 0 {
        table[fd] := Opened(path, flags);
      }
    }

    // mock_close
    method Close(fd: int) returns (result: int)
      modifies table
      ensures result == if 0 <= fd < table.Length && old(table[..])[fd] != Closed then 0 else -1
      ensures table[..] == if result == 0 then old(table[..])[fd := Closed] else old(table[..])
    {
      if fd < 0 || fd >= table.Length || table[fd] == Closed {
        return -1;
      }
      table[fd] := Closed;
      return 0;
    }

    // mock_dup2
    method Dup2(oldFd: int, newFd: int) returns (result: int)
      modifies table
      ensures result == -1 <==>
              !(0 <= oldFd < table.Length && 0 <= newFd < table.Length) || old(table[..])[oldFd] == Closed
      ensures table[..] == if result == -1 then old(table[..]) else old(table[..])[newFd := old(table[..])[oldFd]]
    {
      if oldFd < 0 || oldFd >= table.Length || table[oldFd] == Closed || newFd < 0 || newFd >= table.Length {
        return -1;
      }
      if newFd == oldFd {
        return 0;
      }
      table[newFd] := table[oldFd];
      return newFd;
    }

    // mock_pipe
    method Pipe() returns (result: int, rd: int, wr: int)
      modifies this`pipes, table
      ensures pipes == old(pipes) + 1
      ensures result == -1 ==> table[..] == old(table[..]) && Free(old(table[..])) < 2
      ensures result != -1 ==>
                && Free(old(table[..])) >= 2
                && 0 <= rd < table.Length && 0 <= wr < table.Length && rd != wr
                && old(table[..])[rd] == Closed && old(table[..])[wr] == Closed
                && table[..] == WithPipe(old(table[..]), rd, wr, old(pipes))
    {
      hide Lowest, Free;
      ghost var was := table[..];
      pipes := pipes + 1;
      FoundIffFree(was);
      wr := -1;
      rd := Lookup();
      if rd < 0 {
        return -1, rd, wr;
      }
      table[rd] := PipeEnd(pipes - 1, false);
      ghost var one := table[..];
      assert one == was[rd := PipeEnd(pipes - 1, false)];
      TakingOne(was, rd, PipeEnd(pipes - 1, false));
      FoundIffFree(one);
      wr := Lookup();
      if wr < 0 {
        table[rd] := Closed;
        assert table[..] == was;
        return -1, rd, wr;
      }
      table[wr] := PipeEnd(pipes - 1, true);
      return 0, rd, wr;
    }
  }

  // ---------- What execute_scommand does ----------

  // How a child ends: it runs a program with some descriptors, exits, or fails an assertion.
  datatype Ending = Runs(argv: seq<string>, table: seq<File>) | Exits | Aborts

  // Standard input or output is `file` if the command names one; nothing else changes.
  function Redirect(t: seq<File>, fd: nat, file: Option<string>, flags: int, openable: set<string>): Option<seq<File>>
    requires fd < |t|
  {
    if file.None? then Some(t)
    else if file.value in openable && Closed in t then Some(t[fd := Opened(file.value, flags)])
    else None
  }

  function RunsAs(t: seq<File>, cmd: Command, openable: set<string>): Ending
    requires |t| > STDOUT
  {
    if cmd.args == [] then Aborts
    else
      match Redirect(t, STDIN, cmd.redirIn, O_RDONLY, openable)
      case None => Exits
      case Some(t1) =>
        match Redirect(t1, STDOUT, cmd.redirOut, WRITE_FLAGS, openable)
        case None => Exits
        case Some(t2) => Runs(cmd.args, t2)
  }

  predicate Standard(t: seq<File>) {
    |t| > STDOUT && t[STDIN] != Closed && t[STDOUT] != Closed
  }

  // open() and dup2() and close()
  method OpenAs(d: Descriptors, fd: nat, path: string, flags: int, openable: set<string>) returns (ok: bool)
    requires Standard(d.table[..]) && fd <= STDOUT
    modifies d.table
    ensures ok <==> Redirect(old(d.table[..]), fd, Some(path), flags, openable).Some?
    ensures ok ==> d.table[..] == Redirect(old(d.table[..]), fd, Some(path), flags, openable).value
  {
    ghost var was := d.table[..];
    var f := d.Open(path, flags, path in openable);
    if f == -1 {
      return false;
    }
    assert was[f] in was;
    var dup := d.Dup2(f, fd);
    if dup == -1 {
      return false;
    }
    var _ := d.Close(f);
    assert d.table[..] == was[fd := Opened(path, flags)];
    return true;
  }

  // execute_scommand, up to execvp()
  method ExecuteScommand(d: Descriptors, cmd: Command, openable: set<string>) returns (ending: Ending)
    requires Standard(d.table[..])
    modifies d.table
    ensures ending == RunsAs(old(d.table[..]), cmd, openable)
  {
    if cmd.args == [] {
      return Aborts; // assert(!scommand_is_empty(cmd))
    }
    var arg := [];
    for i := 0 to |cmd.args|
      invariant arg == cmd.args[..i]
    {
      arg := arg + [cmd.args[i]];
    }
    if cmd.redirIn.Some? {
      var ok := OpenAs(d, STDIN, cmd.redirIn.value, O_RDONLY, openable);
      if !ok {
        return Exits;
      }
    }
    if cmd.redirOut.Some? {
      var ok := OpenAs(d, STDOUT, cmd.redirOut.value, WRITE_FLAGS, openable);
      if !ok {
        return Exits;
      }
    }
    return Runs(arg, d.table[..]);
  }

  // ---------- What execute_pipeline does ----------

  // One forked process: its command, its descriptors before redirections, and how it ends.
  datatype Child = Child(cmd: Command, wired: seq<File>, ending: Ending)

  // Command `i` of `n` reads pipe i-1 and writes pipe i, where there are such pipes.
  function Wired(start: seq<File>, base: nat, n: nat, i: nat): (t: seq<File>)
    requires |start| > STDOUT
    ensures |t| == |start|
  {
    var t := if i > 0 then start[STDIN := PipeEnd(base + i - 1, false)] else start;
    if i + 1 < n then t[STDOUT := PipeEnd(base + i, true)] else t
  }

  function ChildOf(start: seq<File>, base: nat, cmds: seq<Command>, i: nat, openable: set<string>): Child
    requires |start| > STDOUT && i < |cmds|
  {
    var t := Wired(start, base, |cmds|, i);
    Child(cmds[i], t, RunsAs(t, cmds[i], openable))
  }

  function Children(start: seq<File>, base: nat, cmds: seq<Command>, k: nat, openable: set<string>): (cs: seq<Child>)
    requires |start| > STDOUT && k <= |cmds|
    ensures |cs| == k && forall i :: 0 <= i < k ==> cs[i] == ChildOf(start, base, cmds, i, openable)
  {
    seq(k, i requires 0 <= i < k => ChildOf(start, base, cmds, i, openable))
  }

  // Command `i` cannot be started: there are not two free descriptors for its pipe, besides those
  // of the pipe before it, or fork() fails.
  predicate Fails(start: seq<File>, n: nat, pids: seq<int>, i: nat)
    requires i < |pids|
  {
    (i + 1 < n && Free(start) < if i == 0 then 2 else 4) || pids[i] == -1
  }

  predicate IsFree(t: seq<File>, fd: int) {
    0 <= fd < |t| && t[fd] == Closed
  }

  // The ends of the pipes of iteration `i` are free descriptors of the starting table, all different.
  predicate Apart(start: seq<File>, n: nat, i: nat, rd0: int, wr0: int, rd: int, wr: int) {
    && (i > 0 ==> IsFree(start, rd0) && IsFree(start, wr0) && rd0 != wr0)
    && (i + 1 < n ==> IsFree(start, rd) && IsFree(start, wr) && rd != wr)
    && (i > 0 && i + 1 < n ==> rd != rd0 && rd != wr0 && wr != rd0 && wr != wr0)
  }

  // The table when iteration `i` forks: the pipe before command `i`, and the one after it.
  function Plumbed(start: seq<File>, base: nat, n: nat, i: nat, rd0: int, wr0: int, rd: int, wr: int): (t: seq<File>)
    requires Apart(start, n, i, rd0, wr0, rd, wr)
    ensures |t| == |start|
  {
    var t := if i > 0 then WithPipe(start, rd0, wr0, base + i - 1) else start;
    if i + 1 < n then WithPipe(t, rd, wr, base + i) else t
  }

  // Between iterations only the pipe before command `i` is open.
  predicate Between(start: seq<File>, base: nat, n: nat, i: nat, rd: int, wr: int, t: seq<File>) {
    if 0 < i < n then IsFree(start, rd) && IsFree(start, wr) && rd != wr && t == WithPipe(start, rd, wr, base + i - 1)
    else t == start
  }

  lemma FreeWithPipe(t: seq<File>, rd: int, wr: int, id: nat)
    requires IsFree(t, rd) && IsFree(t, wr) && rd != wr
    ensures Free(WithPipe(t, rd, wr, id)) == Free(t) - 2
  {
    hide Free;
    TakingOne(t, rd, PipeEnd(id, false));
    TakingOne(t[rd := PipeEnd(id, false)], wr, PipeEnd(id, true));
  }

  // close() of one end of a pipe, dup2() of the other to `fd` and close() of that.
  method TakeEnd(d: Descriptors, drop: int, end: int, fd: nat, ghost t: seq<File>) returns (ok: bool)
    requires IsFree(t, drop) && IsFree(t, end) && drop != end && fd < |t| && t[fd] != Closed
    requires |d.table[..]| == |t| && d.table[drop] != Closed && d.table[end] != Closed
    requires forall i :: 0 <= i < |t| && i != drop && i != end ==> d.table[..][i] == t[i]
    modifies d.table
    ensures ok && d.table[..] == t[fd := old(d.table[..])[end]]
  {
    var _ := d.Close(drop);
    var dup := d.Dup2(end, fd);
    if dup == -1 {
      return false;
    }
    var _ := d.Close(end);
    return true;
  }

  // The dup2() and close() calls of the child of iteration `i`.
  method Wire(d: Descriptors, i: nat, n: nat, rd0: int, wr0: int, rd: int, wr: int, ghost start: seq<File>,
              ghost base: nat)
    returns (ok: bool)
    requires Standard(start) && i < n && Apart(start, n, i, rd0, wr0, rd, wr)
    requires d.table[..] == Plumbed(start, base, n, i, rd0, wr0, rd, wr)
    modifies d.table
    ensures ok && d.table[..] == Wired(start, base, n, i)
  {
    ok := true;
    ghost var t := if i > 0 then start[STDIN := PipeEnd(base + i - 1, false)] else start;
    if i != 0 {
      ok := TakeEnd(d, wr0, rd0, STDIN, if i + 1 < n then WithPipe(start, rd, wr, base + i) else start);
      assert d.table[..] == if i + 1 < n then WithPipe(t, rd, wr, base + i) else t;
    }
    if ok && i != n - 1 {
      ok := TakeEnd(d, rd, wr, STDOUT, t);
    }
  }

  // The child of iteration `i`, from fork() on.
  method RunChild(parent: Descriptors, cmd: Command, i: nat, n: nat, rd0: int, wr0: int, rd: int, wr: int,
                  openable: set<string>, ghost start: seq<File>, ghost base: nat)
    returns (child: Child)
    requires Standard(start) && i < n && Apart(start, n, i, rd0, wr0, rd, wr)
    requires parent.table[..] == Plumbed(start, base, n, i, rd0, wr0, rd, wr)
    ensures child == Child(cmd, Wired(start, base, n, i), RunsAs(Wired(start, base, n, i), cmd, openable))
  {
    hide Plumbed, RunsAs;
    var d := new Descriptors(parent);
    var ok := Wire(d, i, n, rd0, wr0, rd, wr, start, base);
    var wired := d.table[..];
    if !ok {
      return Child(cmd, wired, Exits);
    }
    var ending := ExecuteScommand(d, cmd, openable);
    return Child(cmd, wired, ending);
  }

  predicate IsInternal(name: string) {
    name == "cd" || name == "help" || name == "exit"
  }

  class CommandLine {
    var pipe: seq<Command>
    var wait: bool
  }

  // What is left of a pipeline whose first command is empty.
  function Trimmed(cmds: seq<Command>): (r: seq<Command>)
    ensures |r| <= |cmds|
  {
    if cmds != [] && cmds[0].args == [] then cmds[1..] else cmds
  }

  datatype Outcome = Nothing | Builtin(cmd: Command) | Aborted | Exited | Done

  // What a call does without any fork.
  function Early(cmds: seq<Command>): (r: Option<Outcome>)
    ensures r.Some? ==> r.value != Done && r.value != Exited
    ensures r.None? ==> |cmds| > 0
  {
    if cmds == [] then Some(Nothing)
    else if |cmds| > 1 then None
    else if cmds[0].args == [] then Some(Aborted)
    else if IsInternal(cmds[0].args[0]) then Some(Builtin(cmds[0]))
    else None
  }

  // The beginning of execute_pipeline.
  method Start(apipe: CommandLine) returns (early: Option<Outcome>)
    modifies apipe`pipe
    ensures apipe.pipe == Trimmed(old(apipe.pipe)) && early == Early(apipe.pipe)
  {
    if apipe.pipe == [] {
      return Some(Nothing);
    }
    if apipe.pipe[0].args == [] {
      apipe.pipe := apipe.pipe[1..];
      if apipe.pipe == [] {
        return Some(Nothing);
      }
    }
    if |apipe.pipe| == 1 {
      if apipe.pipe[0].args == [] {
        return Some(Aborted); // the assertion of builtin_is_internal
      }
      if IsInternal(apipe.pipe[0].args[0]) {
        return Some(Builtin(apipe.pipe[0]));
      }
    }
    return None;
  }

  // One iteration of the loop: make the next pipe, fork, and close the pipe before.
  method Launch(d: Descriptors, cmd: Command, i: nat, n: nat, rd0: int, wr0: int, pid: int, openable: set<string>,
                ghost start: seq<File>, ghost base: nat)
    returns (ok: bool, child: Child, rd: int, wr: int)
    requires Standard(start) && i < n && Between(start, base, n, i, rd0, wr0, d.table[..])
    requires d.pipes == base + i
    modifies d`pipes, d.table
    ensures ok <==> !(i + 1 < n && Free(start) < if i == 0 then 2 else 4) && pid != -1
    ensures ok ==>
      Between(start, base, n, i + 1, rd, wr, d.table[..]) && d.pipes == base + if i + 1 < n then i + 1 else i
    ensures ok ==> child == Child(cmd, Wired(start, base, n, i), RunsAs(Wired(start, base, n, i), cmd, openable))
  {
    hide Free, RunsAs, Wired;
    child, rd, wr := Child(cmd, [], Exits), -1, -1;
    if i > 0 {
      FreeWithPipe(start, rd0, wr0, base + i - 1);
    }
    if i != n - 1 {
      var made;
      made, rd, wr := d.Pipe();
      if made == -1 {
        return false, child, rd, wr;
      }
    }
    if pid == -1 {
      return false, child, rd, wr;
    }
    assert d.table[..] == Plumbed(start, base, n, i, rd0, wr0, rd, wr);
    child := RunChild(d, cmd, i, n, rd0, wr0, rd, wr, openable, start, base);
    if i != 0 {
      var _ := d.Close(rd0);
      var _ := d.Close(wr0);
    }
    assert d.table[..] == if i + 1 < n then WithPipe(start, rd, wr, base + i) else start;
    return true, child, rd, wr;
  }

  // The first `k` commands were started, and the next, if there is one, could not be.
  ghost predicate Started(start: seq<File>, base: nat, cmds: seq<Command>, pids: seq<int>, openable: set<string>,
                          children: seq<Child>, k: nat)
    requires |pids| >= |cmds| && |start| > STDOUT
  {
    && k <= |cmds| && children == Children(start, base, cmds, k, openable)
    && (forall i :: 0 <= i < k ==> !Fails(start, |cmds|, pids, i))
    && (k < |cmds| ==> Fails(start, |cmds|, pids, k))
  }

  // execute_pipeline; `pids` are the results of fork() in the parent, and `openable` the files that
  // open() finds.
  method ExecutePipeline(apipe: CommandLine, d: Descriptors, pids: seq<int>, openable: set<string>)
    returns (r: Outcome, children: seq<Child>, ignored: bool, waited: seq<int>)
    requires Standard(d.table[..]) && |pids| >= |apipe.pipe|
    modifies apipe`pipe, d`pipes, d.table
    ensures Early(Trimmed(old(apipe.pipe))).Some? ==>
              && r == Early(Trimmed(old(apipe.pipe))).value && children == [] && waited == [] && !ignored
              && d.table[..] == old(d.table[..]) && d.pipes == old(d.pipes)
    ensures Early(Trimmed(old(apipe.pipe))).None? ==>
              var cmds := Trimmed(old(apipe.pipe));
              && (r == Done || r == Exited) && (r == Done <==> |children| == |cmds|)
              && Started(old(d.table[..]), old(d.pipes), cmds, pids, openable, children, |children|)
              && ignored == !apipe.wait
              && waited == (if r == Done && apipe.wait then pids[..|cmds|] else [])
    ensures r == Done ==>
              && d.table[..] == old(d.table[..]) && d.pipes == old(d.pipes) + |children| - 1
              && apipe.pipe == []
  {
    hide ChildOf, RunsAs, Wired, Free, Fails, Trimmed, Early;
    ghost var start, base := d.table[..], d.pipes;
    children, ignored, waited := [], false, [];
    var early := Start(apipe);
    if early.Some? {
      return early.value, children, ignored, waited;
    }
    ignored := !apipe.wait; // signal(SIGCHLD, SIG_IGN)
    var n := |apipe.pipe|;
    ghost var cmds := apipe.pipe;
    var pids1: seq<int> := [];
    var rd, wr := -1, -1;
    var i: nat := 0;
    while i < n
      invariant i <= n && apipe.pipe == cmds[i..] && pids1 == pids[..i]
      invariant Between(start, base, n, i, rd, wr, d.table[..])
      invariant d.pipes == base + if i < n then i else n - 1
      invariant children == Children(start, base, cmds, i, openable)
      invariant forall j :: 0 <= j < i ==> !Fails(start, n, pids, j)
    {
      FailsIs(start, n, pids, i);
      var ok, child;
      ok, child, rd, wr := Launch(d, apipe.pipe[0], i, n, rd, wr, pids[i], openable, start, base);
      if !ok {
        return Exited, children, ignored, waited;
      }
      assert child == ChildOf(start, base, cmds, i, openable) by { ChildOfIs(start, base, cmds, i, openable); }
      children := children + [child];
      pids1 := pids1 + [pids[i]];
      apipe.pipe := apipe.pipe[1..];
      i := i + 1;
    }
    if apipe.wait {
      for k := 0 to n
        invariant waited == pids1[..k]
      {
        waited := waited + [pids1[k]];
      }
    }
    r := Done;
  }

  lemma FailsIs(start: seq<File>, n: nat, pids: seq<int>, i: nat)
    requires i < |pids|
    ensures Fails(start, n, pids, i) <==> (i + 1 < n && Free(start) < if i == 0 then 2 else 4) || pids[i] == -1
  {
  }

  lemma ChildOfIs(start: seq<File>, base: nat, cmds: seq<Command>, i: nat, openable: set<string>)
    requires |start| > STDOUT && i < |cmds|
    ensures var t := Wired(start, base, |cmds|, i);
            ChildOf(start, base, cmds, i, openable) == Child(cmds[i], t, RunsAs(t, cmds[i], openable))
  {
  }

  // ---------- What the children are wired to ----------

  // No pipe of the run is open before it.
  predicate NoPipes(t: seq<File>, base: nat) {
    forall fd :: 0 <= fd < |t| && t[fd].PipeEnd? ==> t[fd].id < base
  }

  // Of the pipes made, child `i` has only the read end of pipe i-1, as its input, and the write end
  // of pipe i, as its output; all its other descriptors are those the shell had.
  lemma WiredRight(start: seq<File>, base: nat, n: nat, i: nat)
    requires |start| > STDOUT && NoPipes(start, base) && i < n
    ensures var t := Wired(start, base, n, i);
            && (forall fd :: 0 <= fd < |t| && t[fd].PipeEnd? && t[fd].id >= base ==>
                  || (fd == STDIN && i > 0 && t[fd] == PipeEnd(base + i - 1, false))
                  || (fd == STDOUT && i + 1 < n && t[fd] == PipeEnd(base + i, true)))
            && (i > 0 ==> t[STDIN] == PipeEnd(base + i - 1, false)) && (i == 0 ==> t[STDIN] == start[STDIN])
            && (i + 1 < n ==> t[STDOUT] == PipeEnd(base + i, true)) && (i + 1 == n ==> t[STDOUT] == start[STDOUT])
            && (forall fd :: STDOUT < fd < |t| ==> t[fd] == start[fd])
  {
  }

  // So pipe `k` has one writer, child `k`, and one reader, child k+1: the reader sees the end of the
  // data when the writer ends.
  lemma PipeHasOneWriter(start: seq<File>, base: nat, n: nat, i: nat, k: nat)
    requires |start| > STDOUT && NoPipes(start, base) && i < n && k + 1 < n
    ensures PipeEnd(base + k, true) in Wired(start, base, n, i) <==> i == k
    ensures PipeEnd(base + k, false) in Wired(start, base, n, i) <==> i == k + 1
  {
    WiredRight(start, base, n, i);
    var t := Wired(start, base, n, i);
    assert i == k ==> t[STDOUT] in t;
    assert i == k + 1 ==> t[STDIN] in t;
  }

  // Every pipeline can be plumbed with the standard descriptors and four free ones.
  lemma FourAreEnough(start: seq<File>, n: nat, pids: seq<int>)
    requires Free(start) >= 4 && |pids| >= n && forall i :: 0 <= i < n ==> pids[i] > 0
    ensures forall i :: 0 <= i < n ==> !Fails(start, n, pids, i)
  {
  }
}
