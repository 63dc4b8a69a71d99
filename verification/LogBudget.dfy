/**
 Log space: begin_op, log_write and end_op of labo2/kernel/log.c as steps that any number
 of system calls interleave.  Each step is one critical section of log.lock.
 */
module LogBudget {
  import opened Options
  import opened RedoLog

  /**
   `lh` lists the blocks of the open transaction.  `ops[p]` is the set of blocks that the
   system call running in process slot p has logged so far, None if there is none.
   */
  datatype State = State(size: nat, lh: seq<int>, outstanding: nat, committing: bool, ops: seq<Option<set<int>>>) {
    function Capacity(): int {
      Geometry(0, size).Capacity()
    }
  }

  datatype Event =
    | Begin(p: nat)          // begin_op gets past its two tests
    | Write(p: nat, b: int)  // log_write
    | End(p: nat)            // end_op
    | Committed              // commit() has returned to end_op

  function Init(size: nat, slots: nat): State {
    State(size, [], 0, false, seq(slots, p => None))
  }

  predicate Running(s: State, p: nat) {
    p < |s.ops| && s.ops[p].Some?
  }

  // log_write panics with "too big a transaction".
  predicate TooBig(s: State) {
    |s.lh| >= LOGSIZE || |s.lh| >= s.size - 1
  }

  // A system call logs at most MAXOPBLOCKS different blocks.
  predicate WithinBudget(s: State, p: nat, b: int)
    requires Running(s, p)
  {
    |s.ops[p].value + {b}| <= MAXOPBLOCKS
  }

  predicate Enabled(s: State, e: Event) {
    match e
    case Begin(p) => p < |s.ops| && s.ops[p].None? && !s.committing
                     && !(|s.lh| + (s.outstanding + 1) * MAXOPBLOCKS > LOGSIZE)
    case Write(p, b) => Running(s, p) && WithinBudget(s, p, b) && !TooBig(s)
    case End(p) => Running(s, p) && s.outstanding >= 1 && !s.committing
    case Committed => s.committing
  }

  function Apply(s: State, e: Event): State
    requires Enabled(s, e)
  {
    match e
    case Begin(p) => s.(outstanding := s.outstanding + 1, ops := s.ops[p := Some({})])
    case Write(p, b) => s.(lh := if b in s.lh then s.lh else s.lh + [b],
                           ops := s.ops[p := Some(s.ops[p].value + {b})])
    case End(p) => s.(outstanding := s.outstanding - 1, ops := s.ops[p := None],
                      committing := s.outstanding - 1 == 0)
    case Committed => s.(lh := [], committing := false)
  }

  // The state after a run, None if one of its events was not enabled.
  function After(s: State, run: seq<Event>): (r: Option<State>) {
    if run == [] then Some(s)
    else
      var before := After(s, run[..|run| - 1]);
      var e := run[|run| - 1];
      if before.Some? && Enabled(before.value, e) then Some(Apply(before.value, e)) else None
  }

  // ---------- The invariant ----------

  // What the running system calls may still log.
  function Unspent(ops: seq<Option<set<int>>>): int {
    if ops == [] then 0
    else Unspent(ops[..|ops| - 1]) +
         match ops[|ops| - 1] { case None => 0 case Some(w) => MAXOPBLOCKS - |w| }
  }

  function Count(ops: seq<Option<set<int>>>): nat {
    if ops == [] then 0 else Count(ops[..|ops| - 1]) + if ops[|ops| - 1].Some? then 1 else 0
  }

  ghost predicate OpsLogged(s: State) {
    forall p :: 0 <= p < |s.ops| && s.ops[p].Some? ==>
      |s.ops[p].value| <= MAXOPBLOCKS && forall b :: b in s.ops[p].value ==> b in s.lh
  }

  ghost predicate Inv(s: State) {
    && s.outstanding == Count(s.ops)
    && Distinct(s.lh)
    && OpsLogged(s)
    && |s.lh| + Unspent(s.ops) <= LOGSIZE
    && (s.committing ==> Count(s.ops) == 0)
  }

  lemma {:induction false} SumsAfterUpdate(ops: seq<Option<set<int>>>, p: nat, o: Option<set<int>>)
    requires p < |ops|
    ensures Unspent(ops[p := o]) == Unspent(ops) - Unspent([ops[p]]) + Unspent([o])
    ensures Count(ops[p := o]) == Count(ops) - Count([ops[p]]) + Count([o])
  {
    var last := |ops| - 1;
    var changed := ops[p := o];
    if p == last {
      assert changed[..last] == ops[..last];
    } else {
      assert changed[..last] == ops[..last][p := o];
      SumsAfterUpdate(ops[..last], p, o);
    }
  }

  lemma {:induction false} UnspentBounds(ops: seq<Option<set<int>>>)
    requires forall p :: 0 <= p < |ops| && ops[p].Some? ==> |ops[p].value| <= MAXOPBLOCKS
    ensures 0 <= Unspent(ops) <= Count(ops) * MAXOPBLOCKS
    ensures forall p :: 0 <= p < |ops| && ops[p].Some? ==> MAXOPBLOCKS - |ops[p].value| <= Unspent(ops)
    ensures forall p :: 0 <= p < |ops| && ops[p].Some? ==> Count(ops) > 0
  {
    if ops != [] {
      var rest := ops[..|ops| - 1];
      UnspentBounds(rest);
      assert forall p :: 0 <= p < |rest| ==> rest[p] == ops[p];
    }
  }

  lemma NoOpsAtInit(slots: nat)
    ensures Unspent(Init(0, slots).ops) == 0 && Count(Init(0, slots).ops) == 0
  {
    if slots > 0 {
      NoOpsAtInit(slots - 1);
      assert Init(0, slots).ops[..slots - 1] == Init(0, slots - 1).ops;
    }
  }

  lemma WriteKeepsInv(s: State, p: nat, b: int)
    requires Inv(s) && Enabled(s, Write(p, b))
    ensures Inv(Apply(s, Write(p, b)))
  {
    var w := s.ops[p].value;
    SumsAfterUpdate(s.ops, p, Some(w + {b}));
    if b in s.lh {
      assert |w + {b}| >= |w| by { if b in w { assert w + {b} == w; } }
    } else {
      assert b !in w;
    }
  }

  lemma StepKeepsInv(s: State, e: Event)
    requires Inv(s) && Enabled(s, e)
    ensures Inv(Apply(s, e))
  {
    UnspentBounds(s.ops);
    match e
    case Begin(p) => SumsAfterUpdate(s.ops, p, Some({}));
    case Write(p, b) => WriteKeepsInv(s, p, b);
    case End(p) => SumsAfterUpdate(s.ops, p, None);
    case Committed =>
  }

  /**
   Over every run the open transaction and everything that its system calls may still log
   fit in the log, and no block is logged twice.
   */
  lemma {:induction false} RunKeepsInv(size: nat, slots: nat, run: seq<Event>)
    requires After(Init(size, slots), run).Some?
    ensures Inv(After(Init(size, slots), run).value)
    ensures After(Init(size, slots), run).value.size == size
    decreases |run|
  {
    if run == [] {
      NoOpsAtInit(slots);
    } else {
      RunKeepsInv(size, slots, run[..|run| - 1]);
      StepKeepsInv(After(Init(size, slots), run[..|run| - 1]).value, run[|run| - 1]);
    }
  }

  // ---------- When log_write panics ----------

  /**
   A log_write that stays within the budget of its system call, in a log of any size: an append
   finds a slot exactly when the log has one left, and a transaction of LOGSIZE blocks leaves
   no budget for an append: what panics there is a write that would have been absorbed.
   */
  lemma WithinBudgetAppends(size: nat, slots: nat, run: seq<Event>, p: nat, b: int)
    requires After(Init(size, slots), run).Some?
    requires var s := After(Init(size, slots), run).value; Running(s, p) && WithinBudget(s, p, b)
    ensures var s := After(Init(size, slots), run).value;
            && (Enabled(s, Write(p, b)) <==> |s.lh| < LOGSIZE && |s.lh| < size - 1)
            && (b !in s.lh ==> (Enabled(s, Write(p, b)) <==> |s.lh| < size - 1))
            && (|s.lh| >= LOGSIZE ==> b in s.lh && |s.lh| == LOGSIZE && Unspent(s.ops) == 0)
  {
    var s := After(Init(size, slots), run).value;
    RunKeepsInv(size, slots, run);
    UnspentBounds(s.ops);
    var w := s.ops[p].value;
    assert b !in w ==> |w + {b}| == |w| + 1;
  }

  // After the run, system call `p` may append block `b`.
  predicate Appends(size: nat, slots: nat, run: seq<Event>, p: nat, b: int) {
    var r := After(Init(size, slots), run);
    r.Some? && Running(r.value, p) && WithinBudget(r.value, p, b) && b !in r.value.lh
  }

  predicate Fits(size: nat, slots: nat, run: seq<Event>, p: nat, b: int)
    requires Appends(size, slots, run, p, b)
  {
    Enabled(After(Init(size, slots), run).value, Write(p, b))
  }

  // `k` writes of fresh blocks by one system call.
  function Writes(p: nat, first: int, k: nat): seq<Event> {
    if k == 0 then [] else Writes(p, first, k - 1) + [Write(p, first + k - 1)]
  }

  predicate Between(first: int, b: int, k: int) {
    first <= b < first + k
  }

  function Blocks(first: nat, k: nat): set<int> {
    set b: int | first <= b < first + k && Between(first, b, k)
  }

  lemma {:induction false} BlocksSize(first: nat, k: nat)
    ensures |Blocks(first, k)| == k
  {
    if k > 0 {
      BlocksSize(first, k - 1);
      assert Blocks(first, k) == Blocks(first, k - 1) + {first + k - 1} by {
        assert Between(first, first + k - 1, k);
      }
    }
  }

  function Sequence(k: nat): (s: seq<int>)
    ensures |s| == k && forall i :: 0 <= i < k ==> s[i] == i
  {
    seq(k, i => i)
  }

  lemma AfterStep(s: State, run: seq<Event>, e: Event, t: State)
    requires After(s, run) == Some(t) && Enabled(t, e)
    ensures After(s, run + [e]) == Some(Apply(t, e))
  {
    assert (run + [e])[..|run|] == run;
  }

  // The state once system call `p` has logged blocks first, ..., first + k - 1.
  function Filled(t: State, p: nat, first: nat, k: nat): State
    requires p < |t.ops|
  {
    t.(lh := Sequence(first + k), ops := t.ops[p := Some(Blocks(first, k))])
  }

  lemma FillOne(t: State, p: nat, first: nat, k: nat)
    requires p < |t.ops| && k < MAXOPBLOCKS && first + k < LOGSIZE && first + k < t.size - 1
    ensures Enabled(Filled(t, p, first, k), Write(p, first + k))
    ensures Apply(Filled(t, p, first, k), Write(p, first + k)) == Filled(t, p, first, k + 1)
  {
    BlocksSize(first, k + 1);
    var u := Filled(t, p, first, k);
    assert u.ops[p].value + {first + k} == Blocks(first, k + 1);
    assert u.lh + [first + k] == Sequence(first + k + 1);
    assert u.ops[p := Some(Blocks(first, k + 1))] == Filled(t, p, first, k + 1).ops;
  }

  lemma {:induction false} AfterWrites(s: State, run: seq<Event>, p: nat, first: nat, k: nat, t: State)
    requires After(s, run) == Some(t) && k <= MAXOPBLOCKS
    requires p < |t.ops| && t.ops[p] == Some({}) && t.lh == Sequence(first)
    requires first + k <= LOGSIZE && first + k <= t.size - 1
    ensures After(s, run + Writes(p, first, k)) == Some(Filled(t, p, first, k))
  {
    hide After, Enabled, Apply;
    if k == 0 {
      assert run + Writes(p, first, 0) == run;
      assert Blocks(first, 0) == {};
      assert t.ops[p := Some(Blocks(first, 0))] == t.ops;
    } else {
      AfterWrites(s, run, p, first, k - 1, t);
      FillOne(t, p, first, k - 1);
      AfterStep(s, run + Writes(p, first, k - 1), Write(p, first + k - 1), Filled(t, p, first, k - 1));
      assert run + Writes(p, first, k) == run + Writes(p, first, k - 1) + [Write(p, first + k - 1)];
    }
  }

  // How `k` blocks are shared among three system calls.
  function First(k: nat): nat {
    if k <= MAXOPBLOCKS then k else MAXOPBLOCKS
  }

  function Second(k: nat): nat {
    First(k - First(k))
  }

  function Third(k: nat): nat {
    k - First(k) - Second(k)
  }

  lemma Shares(k: nat)
    requires k <= LOGSIZE
    ensures First(k) <= MAXOPBLOCKS && Second(k) <= MAXOPBLOCKS && Third(k) <= MAXOPBLOCKS
    ensures First(k) + Second(k) + Third(k) == k && (k < LOGSIZE ==> Third(k) < MAXOPBLOCKS)
  {
  }

  // Two system calls begin; the first logs blocks, ends, and another begins in its place.
  function Opening(k: nat): seq<Event> {
    [] + [Begin(0)] + [Begin(1)] + Writes(0, 0, First(k)) + [End(0)] + [Begin(0)]
  }

  // Then the two log the rest of `k` different blocks.
  function Filling(k: nat): seq<Event> {
    Opening(k) + Writes(0, First(k), Second(k)) + Writes(1, First(k) + Second(k), Third(k))
  }

  function Opened(size: nat, slots: nat, k: nat): State
    requires slots >= 2
  {
    State(size, Sequence(First(k)), 2, false, Init(size, slots).ops[0 := Some({})][1 := Some({})])
  }

  lemma {:induction false} AfterOpening(size: nat, slots: nat, k: nat)
    requires slots >= 2 && First(k) <= size - 1
    ensures After(Init(size, slots), Opening(k)) == Some(Opened(size, slots, k))
  {
    var s := Init(size, slots);
    var one := s.(outstanding := 1, ops := s.ops[0 := Some({})]);
    var two := one.(outstanding := 2, ops := one.ops[1 := Some({})]);
    var a := First(k);
    assert two.lh == Sequence(0) && After(s, []) == Some(s);
    AfterStep(s, [], Begin(0), s);
    AfterStep(s, [] + [Begin(0)], Begin(1), one);
    AfterWrites(s, [] + [Begin(0)] + [Begin(1)], 0, 0, a, two);
    var three := Filled(two, 0, 0, a);
    AfterStep(s, [] + [Begin(0)] + [Begin(1)] + Writes(0, 0, a), End(0), three);
    hide After, Writes, Sequence, Blocks, Filled;
    EndsAndBegins(size, slots, k);
    AfterStep(s, [] + [Begin(0)] + [Begin(1)] + Writes(0, 0, a) + [End(0)], Begin(0), Apply(three, End(0)));
  }

  // The first ends while the second goes on, and another begins.
  lemma EndsAndBegins(size: nat, slots: nat, k: nat)
    requires slots >= 2
    ensures var s := Init(size, slots);
            var two := s.(outstanding := 2, ops := s.ops[0 := Some({})][1 := Some({})]);
            var three := Filled(two, 0, 0, First(k));
            && Enabled(three, End(0)) && Enabled(Apply(three, End(0)), Begin(0))
            && Apply(Apply(three, End(0)), Begin(0)) == Opened(size, slots, k)
  {
    hide Sequence, Blocks;
    var s := Init(size, slots);
    var two := s.(outstanding := 2, ops := s.ops[0 := Some({})][1 := Some({})]);
    var four := Apply(Filled(two, 0, 0, First(k)), End(0));
    assert Apply(four, Begin(0)).ops == Opened(size, slots, k).ops;
  }

  function Full(size: nat, slots: nat, k: nat): State
    requires slots >= 2
  {
    State(size, Sequence(k), 2, false,
          Init(size, slots).ops[0 := Some(Blocks(First(k), Second(k)))][1 := Some(Blocks(First(k) + Second(k),
            Third(k)))])
  }

  // The states on the way.
  lemma FullIsFilled(size: nat, slots: nat, k: nat)
    requires slots >= 2 && k <= LOGSIZE
    ensures var t := Opened(size, slots, k);
            && |t.ops| == slots && t.ops[0] == Some({}) && t.lh == Sequence(First(k)) && t.size == size
            && var u := Filled(t, 0, First(k), Second(k));
            && |u.ops| == slots && u.ops[1] == Some({}) && u.lh == Sequence(First(k) + Second(k)) && u.size == size
            && Filled(u, 1, First(k) + Second(k), Third(k)) == Full(size, slots, k)
  {
    Shares(k);
    hide Sequence, Blocks, First, Second, Third;
    var t := Opened(size, slots, k);
    var u := Filled(t, 0, First(k), Second(k));
    assert u.ops[1] == t.ops[1] == Some({});
    assert Filled(u, 1, First(k) + Second(k), Third(k)).ops == Full(size, slots, k).ops;
  }

  // Two slots are enough to log any number of blocks that the log and LOGSIZE allow.
  lemma {:induction false} AfterFilling(size: nat, slots: nat, k: nat)
    requires slots >= 2 && k <= LOGSIZE && k <= size - 1
    ensures After(Init(size, slots), Filling(k)) == Some(Full(size, slots, k))
  {
    Shares(k);
    hide After, Init, Writes, Sequence, Blocks, First, Second, Third, Opening, Opened, Filled, Full;
    AfterOpening(size, slots, k);
    FullIsFilled(size, slots, k);
    var s, t := Init(size, slots), Opened(size, slots, k);
    AfterWrites(s, Opening(k), 0, First(k), Second(k), t);
    var u := Filled(t, 0, First(k), Second(k));
    AfterWrites(s, Opening(k) + Writes(0, First(k), Second(k)), 1, First(k) + Second(k), Third(k), u);
  }

  // What may be written next, once `k` blocks are logged.
  lemma FullAppends(size: nat, slots: nat, k: nat)
    requires slots >= 2 && k < LOGSIZE
    ensures var s := Full(size, slots, k); Running(s, 1) && WithinBudget(s, 1, k) && k !in s.lh && |s.lh| == k
  {
    Shares(k);
    hide First, Second, Third;
    OneMore(First(k) + Second(k), Third(k));
    hide Blocks;
  }

  lemma OneMore(first: nat, k: nat)
    ensures |Blocks(first, k) + {first + k}| == k + 1
  {
    BlocksSize(first, k + 1);
    assert Blocks(first, k) + {first + k} == Blocks(first, k + 1) by {
      assert Between(first, first + k, k + 1);
    }
  }

  lemma FirstAppends(size: nat, slots: nat, b: int)
    requires slots >= 2
    ensures var s := Init(size, slots);
            && Enabled(s, Begin(1))
            && var t := Apply(s, Begin(1)); Running(t, 1) && WithinBudget(t, 1, b) && t.lh == [] && t.size == size
  {
    assert {} + {b} == {b};
  }

  // A small log: after a run that fills it, an append within budget has no slot.
  lemma {:induction false} SmallLogFails(size: nat, slots: nat) returns (run: seq<Event>, b: int)
    requires slots >= 2 && size <= LOGSIZE
    ensures Appends(size, slots, run, 1, b) && !Fits(size, slots, run, 1, b)
  {
    hide Filling, WithinBudget, Blocks, First, Second, Third;
    var k := if size == 0 then 0 else size - 1;
    b := k;
    if size == 0 {
      var s := Init(size, slots);
      assert After(s, []) == Some(s);
      FirstAppends(size, slots, b);
      AfterStep(s, [], Begin(1), s);
      run := [] + [Begin(1)];
    } else {
      hide After;
      run := Filling(k);
      AfterFilling(size, slots, k);
      FullAppends(size, slots, k);
    }
  }

  /**
   An append within budget finds a slot in every run, if and only if the log has more than
   LOGSIZE blocks.
   */
  lemma {:induction false} AppendsFitExactly(size: nat, slots: nat)
    requires slots >= 2
    ensures size > LOGSIZE <==>
            forall run, p: nat, b :: Appends(size, slots, run, p, b) ==> Fits(size, slots, run, p, b)
  {
    if size > LOGSIZE {
      forall run, p: nat, b | Appends(size, slots, run, p, b)
        ensures Fits(size, slots, run, p, b)
      {
        WithinBudgetAppends(size, slots, run, p, b);
      }
    } else {
      var run, b := SmallLogFails(size, slots);
      hide Appends, Fits;
    }
  }

  /** The log that mkfs lays out has nlog == LOGSIZE blocks, header included: one too few. */
  lemma {:induction false} ShippedLogIsOneShort(slots: nat) returns (run: seq<Event>, p: nat, b: int)
    requires slots >= 2
    ensures Appends(LOGSIZE, slots, run, p, b) && !Fits(LOGSIZE, slots, run, p, b)
  {
    p := 1;
    run, b := SmallLogFails(LOGSIZE, slots);
  }

  /**
   However large the log is, a write within budget of a block already logged can panic: system
   calls that use their whole budget fill the transaction.
   */
  lemma {:induction false} AbsorbedWriteCanPanic(size: nat, slots: nat) returns (run: seq<Event>, b: int)
    requires slots >= 2 && size > LOGSIZE
    ensures var end := After(Init(size, slots), run);
            && end.Some? && Running(end.value, 1) && WithinBudget(end.value, 1, b)
            && b in end.value.lh && !Enabled(end.value, Write(1, b))
  {
    hide After, Filling, Blocks;
    run, b := Filling(LOGSIZE), LOGSIZE - MAXOPBLOCKS;
    AfterFilling(size, slots, LOGSIZE);
    FullAbsorbs(size, slots);
  }

  lemma FullAbsorbs(size: nat, slots: nat)
    requires slots >= 2
    ensures var s := Full(size, slots, LOGSIZE);
            && Running(s, 1) && WithinBudget(s, 1, LOGSIZE - MAXOPBLOCKS)
            && LOGSIZE - MAXOPBLOCKS in s.lh && |s.lh| == LOGSIZE
  {
    var b := LOGSIZE - MAXOPBLOCKS;
    BlocksSize(b, MAXOPBLOCKS);
    assert Sequence(LOGSIZE)[b] == b;
    assert Blocks(b, MAXOPBLOCKS) + {b} == Blocks(b, MAXOPBLOCKS) by {
      assert Between(b, b, MAXOPBLOCKS);
    }
    hide Blocks, Sequence;
  }
}
