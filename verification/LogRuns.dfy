/** Every interleaving of begin_op, log_write and end_op by any number of system calls, with the
    disk writes of a commit as separate steps and a crash possible after any of them. */
module LogRuns {
  import opened Blocks
  import opened LogImages

  /** A system call between its begin_op and its end_op, and the blocks it has logged. */
  datatype Op = Op(id: nat, logged: set<int>)

  /** One log_write, for the history. */
  datatype Write = Write(op: nat, block: int, data: Block)

  /** Where the process running commit() is: `done` of its disk writes have reached the disk. */
  datatype Phase = Idle | Committing(base: Core, since: nat, done: nat)

  /** `writes` records every log_write; `writes[..mark]` had been logged when the header of the
      last committed transaction reached the disk. */
  datatype State = State(core: Core, phase: Phase, active: seq<Op>, nextOp: nat, writes: seq<Write>, mark: nat)

  datatype Event =
    | Begin
    | Log(i: nat, b: Word, data: Block)
    | End(i: nat)
    | DiskWrite
    | Finish
    | Crash(boots: seq<nat>)

  datatype Result = Next(s: State) | Disabled | Panic(why: Outcome)

  // ---------------------------------------------------------------- steps

  function Init(lay: Layout, d: Disk): (s: State)
    requires Recoverable(lay, d)
  {
    State(Core(Recover(lay, d), map[], [], 0, false), Idle, [], 0, [], 0)
  }

  /** begin_op(): a sleeping caller leaves everything as it is. */
  function StepBegin(s: State): (r: Result) {
    match BeginOp(s.core)
    case Done(c) => Next(s.(core := c, active := s.active + [Op(s.nextOp, {})], nextOp := s.nextOp + 1))
    case Sleep => Next(s)
    case o => Panic(o)
  }

  /** What a system call may log: home blocks, and at most MAXOPBLOCKS different ones. */
  predicate WithinBudget(lay: Layout, s: State, i: nat, b: Word) {
    && i < |s.active|
    && HomeBlock(lay, |s.core.disk|, b)
    && |s.active[i].logged + {b as int}| <= MAXOPBLOCKS
  }

  function StepLog(lay: Layout, s: State, i: nat, b: Word, data: Block): (r: Result) {
    if !WithinBudget(lay, s, i, b) then Disabled
    else
      var op := s.active[i];
      match LogWrite(lay, s.core, b, data)
      case Done(c) =>
        Next(s.(core := c, active := s.active[i := op.(logged := op.logged + {b as int})],
                writes := s.writes + [Write(op.id, b, data)]))
      case o => Panic(o)
  }

  function StepEnd(s: State, i: nat): (r: Result) {
    if i >= |s.active| then Disabled
    else
      match EndOp(s.core)
      case Done(c) =>
        Next(s.(core := c, active := s.active[..i] + s.active[i + 1..],
                phase := if c.committing then Committing(c, s.mark, 0) else s.phase))
      case o => Panic(o)
  }

  /** The next disk write of commit(). */
  function StepDiskWrite(lay: Layout, s: State): (r: Result) {
    if s.phase.Idle? || s.phase.done >= CommitWrites(|s.phase.base.lh|) || !ValidCore(lay, s.phase.base) then Disabled
    else
      var k := s.phase.done + 1;
      Next(s.(core := CommitCore(lay, s.phase.base, k), phase := s.phase.(done := k),
              mark := if k == |s.phase.base.lh| + 1 then |s.writes| else s.mark))
  }

  /** commit() has returned; the second locked region of end_op(). */
  function StepFinish(s: State): (r: Result) {
    if s.phase.Idle? || s.phase.done != CommitWrites(|s.phase.base.lh|) then Disabled
    else Next(s.(core := s.core.(committing := false), phase := Idle))
  }

  /** Power loss, then boots that crash after `boots[i]` disk writes, then one that completes. */
  function StepCrash(lay: Layout, s: State, boots: seq<nat>): (r: Result) {
    if s.mark > |s.writes| || !CrashChain(lay, s.core.disk, boots) then Disabled
    else
      var d := Recover(lay, AfterCrashes(lay, s.core.disk, boots));
      Next(State(Core(d, map[], [], 0, false), Idle, [], s.nextOp, s.writes[..s.mark], s.mark))
  }

  function Step(lay: Layout, s: State, e: Event): (r: Result) {
    match e
    case Begin => StepBegin(s)
    case Log(i, b, data) => StepLog(lay, s, i, b, data)
    case End(i) => StepEnd(s, i)
    case DiskWrite => StepDiskWrite(lay, s)
    case Finish => StepFinish(s)
    case Crash(boots) => StepCrash(lay, s, boots)
  }

  /** The result of a sequence of events; a panic or an impossible event ends it. */
  function Run(lay: Layout, s: State, es: seq<Event>): (r: Result) {
    if es == [] then Next(s)
    else
      match Run(lay, s, es[..|es| - 1])
      case Next(t) => Step(lay, t, es[|es| - 1])
      case r => r
  }

  // ---------------------------------------------------------------- invariant

  /** Home blocks after a sequence of log_writes. */
  function Apply(h: map<int, Block>, ws: seq<Write>): (r: map<int, Block>) {
    if ws == [] then h
    else Apply(h, ws[..|ws| - 1])[ws[|ws| - 1].block := ws[|ws| - 1].data]
  }

  /** Log space the active calls may still claim. */
  function Unused(active: seq<Op>): (n: int) {
    if active == [] then 0
    else Unused(active[..|active| - 1]) + MAXOPBLOCKS - |active[|active| - 1].logged|
  }

  predicate Distinct(lh: seq<Word>) {
    forall i, j :: 0 <= i < j < |lh| ==> lh[i] != lh[j]
  }

  /** The in-memory transaction and the disk, while no commit is writing. */
  predicate Quiet(lay: Layout, h: map<int, Block>, c: Core, writes: seq<Write>, mark: nat) {
    && mark <= |writes|
    && ValidCore(lay, c) && LogEmpty(lay, c.disk)
    && Distinct(c.lh)
    && c.cache.Keys == BlockSet(c.lh, |c.lh|)
    && Home(lay, c.disk) == Apply(h, writes[..mark])
    && LogicalHome(lay, c.disk, c.cache) == Apply(h, writes)
  }

  /** The active calls: their reservations, and no write of theirs is already committed. */
  predicate Calls(s: State) {
    && s.core.outstanding == |s.active|
    && (forall i :: 0 <= i < |s.active| ==>
          && s.active[i].id < s.nextOp
          && s.active[i].logged <= BlockSet(s.core.lh, |s.core.lh|)
          && |s.active[i].logged| <= MAXOPBLOCKS)
    && (forall i :: 0 <= i < |s.writes| ==> s.writes[i].op < s.nextOp)
    && (forall i, j :: 0 <= i < s.mark <= |s.writes| && 0 <= j < |s.active| ==> s.writes[i].op != s.active[j].id)
    && (forall i, j :: 0 <= i < s.mark <= j < |s.writes| ==> s.writes[i].op != s.writes[j].op)
    && |s.core.lh| + Unused(s.active) <= LOGSIZE
  }

  predicate Inv(lay: Layout, h: map<int, Block>, s: State) {
    && Calls(s)
    && match s.phase
       case Idle =>
         && !s.core.committing && Quiet(lay, h, s.core, s.writes, s.mark)
         && (s.active == [] ==> s.core.lh == [])
       case Committing(base, since, done) =>
         && s.active == []
         && base.committing && base.outstanding == 0
         && Quiet(lay, h, base, s.writes, since)
         && done <= CommitWrites(|base.lh|)
         && s.core == CommitCore(lay, base, done)
         && s.mark == if done <= |base.lh| then since else |s.writes|
  }

  // ---------------------------------------------------------------- crash safety of one state

  lemma {:induction false} QuietNewHome(lay: Layout, h: map<int, Block>, c: Core, writes: seq<Write>, mark: nat)
    requires Quiet(lay, h, c, writes, mark)
    ensures NewHome(lay, c.disk, c.cache, c.lh) == Apply(h, writes)
  {
    hide Apply, Distinct, Loggable, LogEmpty;
    assert c.lh[..|c.lh|] == c.lh;
  }

  /** In a state satisfying the invariant, recovery restores exactly the committed writes,
      however many times it is interrupted. */
  lemma {:induction false} CrashHome(lay: Layout, h: map<int, Block>, s: State, boots: seq<nat>)
    requires Inv(lay, h, s)
    ensures s.mark <= |s.writes| && Recoverable(lay, s.core.disk)
    ensures CrashChain(lay, s.core.disk, boots) ==>
              Home(lay, Recover(lay, AfterCrashes(lay, s.core.disk, boots))) == Apply(h, s.writes[..s.mark])
  {
    hide Apply, NewHome, Recover, LogicalHome, Home, LogEmpty, Calls, CommitImage, CommitWrites, Distinct, BlockSet;
    if s.phase.Idle? {
      LogEmptyRecover(lay, s.core.disk);
    } else {
      var base := s.phase.base;
      CommitAtomic(lay, base.disk, base.cache, base.lh, s.phase.done);
      QuietNewHome(lay, h, base, s.writes, s.phase.since);
      assert s.writes[..|s.writes|] == s.writes;
    }
    if CrashChain(lay, s.core.disk, boots) {
      CrashesDoNotMatter(lay, s.core.disk, boots);
    }
  }

  // ---------------------------------------------------------------- preservation

  lemma {:induction false} InvInit(lay: Layout, d: Disk)
    requires Recoverable(lay, d)
    ensures Inv(lay, Home(lay, Recover(lay, d)), Init(lay, d))
  {
    assert LogEmpty(lay, Recover(lay, d));
    assert LogicalHome(lay, Recover(lay, d), map[]) == Home(lay, Recover(lay, d));
  }

  /** Quiet does not depend on the counters. */
  lemma {:induction false} QuietSame(lay: Layout, h: map<int, Block>, c: Core, c': Core, ws: seq<Write>, mark: nat)
    requires Quiet(lay, h, c, ws, mark) && c' == c.(outstanding := c'.outstanding, committing := c'.committing)
    ensures Quiet(lay, h, c', ws, mark)
  {
    hide Home, LogicalHome, Apply, Loggable, LogEmpty, Distinct, BlockSet;
  }

  lemma {:induction false} InvBegin(lay: Layout, h: map<int, Block>, s: State)
    requires Inv(lay, h, s)
    ensures StepBegin(s).Next? && Inv(lay, h, StepBegin(s).s)
  {
    hide Quiet, BlockSet;
    if BeginOp(s.core).Done? {
      QuietSame(lay, h, s.core, BeginOp(s.core).core, s.writes, s.mark);
      QuietBounds(lay, h, s.core, s.writes, s.mark);
      CallsBegin(s);
    }
  }

  lemma {:induction false} CallsBegin(s: State)
    requires Calls(s) && BeginOp(s.core).Done?
    ensures Calls(StepBegin(s).s)
  {
    hide BlockSet;
    var a := s.active + [Op(s.nextOp, {})];
    assert a[..|a| - 1] == s.active;
    UnusedBound(s.active);
  }

  lemma {:induction false} UnusedBound(active: seq<Op>)
    ensures Unused(active) <= |active| * MAXOPBLOCKS
  {
    if active != [] {
      UnusedBound(active[..|active| - 1]);
    }
  }

  lemma {:induction false} UnusedUpdate(active: seq<Op>, i: nat, op: Op)
    requires i < |active|
    ensures Unused(active[i := op]) == Unused(active) + |active[i].logged| - |op.logged|
  {
    var n := |active| - 1;
    if i == n {
      assert active[i := op][..n] == active[..n];
    } else {
      assert active[i := op][..n] == active[..n][i := op];
      UnusedUpdate(active[..n], i, op);
    }
  }

  lemma {:induction false} UnusedRemove(active: seq<Op>, i: nat)
    requires i < |active| && |active[i].logged| <= MAXOPBLOCKS
    ensures Unused(active[..i] + active[i + 1..]) <= Unused(active)
  {
    var n := |active| - 1;
    if i == n {
      assert active[..i] + active[i + 1..] == active[..n];
    } else {
      var r := active[..i] + active[i + 1..];
      assert r[..|r| - 1] == active[..n][..i] + active[..n][i + 1..];
      UnusedRemove(active[..n], i);
    }
  }

  lemma {:induction false} BlockSetAbsorb(lh: seq<Word>, b: Word)
    requires Distinct(lh)
    ensures Distinct(Absorb(lh, b))
    ensures BlockSet(Absorb(lh, b), |Absorb(lh, b)|) == BlockSet(lh, |lh|) + {b as int}
  {
    var r := Absorb(lh, b);
    assert lh[..|lh|] == lh && r[..|r|] == r;
  }

  lemma {:induction false} QuietLog(lay: Layout, h: map<int, Block>, c: Core, ws: seq<Write>, mark: nat, w: Write, b: Word)
    requires Quiet(lay, h, c, ws, mark) && HomeBlock(lay, |c.disk|, b) && w.block == b
    requires LogWrite(lay, c, b, w.data).Done?
    ensures Quiet(lay, h, LogWrite(lay, c, b, w.data).core, ws + [w], mark)
  {
    hide Home, BlockSet, LogEmpty, Distinct;
    var c' := LogWrite(lay, c, b, w.data).core;
    BlockSetAbsorb(c.lh, b);
    assert (ws + [w])[..mark] == ws[..mark];
    assert (ws + [w])[..|ws|] == ws;
    assert LogicalHome(lay, c.disk, c'.cache) == LogicalHome(lay, c.disk, c.cache)[b as int := w.data];
  }

  /** A call's new log entry is paid for by its own reservation. */
  lemma {:induction false} ReservationLog(s: State, i: nat, b: Word)
    requires i < |s.active| && s.active[i].logged <= BlockSet(s.core.lh, |s.core.lh|)
    requires |s.core.lh| + Unused(s.active) <= LOGSIZE
    ensures var op' := s.active[i].(logged := s.active[i].logged + {b as int});
            |Absorb(s.core.lh, b)| + Unused(s.active[i := op']) <= LOGSIZE
  {
    hide BlockSet;
    var op := s.active[i];
    UnusedUpdate(s.active, i, op.(logged := op.logged + {b as int}));
    InBlockSet(s.core.lh, b);
    if b as int in op.logged {
      assert op.logged + {b as int} == op.logged;
    }
  }

  lemma {:induction false} CallsLog(lay: Layout, s: State, i: nat, b: Word, data: Block)
    requires Calls(s) && s.mark <= |s.writes| && Distinct(s.core.lh) && StepLog(lay, s, i, b, data).Next?
    ensures Calls(StepLog(lay, s, i, b, data).s)
  {
    hide BlockSet, Unused, Absorb, HomeBlock, Distinct;
    var op := s.active[i];
    var s' := StepLog(lay, s, i, b, data).s;
    ReservationLog(s, i, b);
    BlockSetAbsorb(s.core.lh, b);
    assert forall j :: 0 <= j < |s.writes| ==> s'.writes[j] == s.writes[j];
    assert s'.writes[|s.writes|].op == op.id;
    assert forall j :: 0 <= j < |s'.active| ==> s'.active[j].id == s.active[j].id;
  }

  lemma {:induction false} InBlockSet(lh: seq<Word>, b: Word)
    ensures b as int in BlockSet(lh, |lh|) <==> b in lh
  {
    assert lh[..|lh|] == lh;
  }

  lemma {:induction false} InvLog(lay: Layout, h: map<int, Block>, s: State, i: nat, b: Word, data: Block)
    requires Inv(lay, h, s) && StepLog(lay, s, i, b, data).Next?
    ensures Inv(lay, h, StepLog(lay, s, i, b, data).s)
  {
    hide Quiet;
    QuietBounds(lay, h, s.core, s.writes, s.mark);
    CallsLog(lay, s, i, b, data);
    QuietLog(lay, h, s.core, s.writes, s.mark, Write(s.active[i].id, b, data), b);
  }

  lemma {:induction false} InvEnd(lay: Layout, h: map<int, Block>, s: State, i: nat)
    requires Inv(lay, h, s) && i < |s.active|
    ensures StepEnd(s, i).Next? && Inv(lay, h, StepEnd(s, i).s)
  {
    hide Quiet, BlockSet, Unused, CommitCore, CommitWrites;
    var c := EndOp(s.core).core;
    QuietSame(lay, h, s.core, c, s.writes, s.mark);
    QuietBounds(lay, h, c, s.writes, s.mark);
    UnusedRemove(s.active, i);
    CommitZero(lay, c);
    assert c.committing <==> |s.active| == 1;
  }

  lemma {:induction false} CommitZero(lay: Layout, c: Core)
    requires ValidCore(lay, c)
    ensures CommitCore(lay, c, 0) == c
  {
    assert c.cache - {} == c.cache;
    assert |c.lh| == 0 ==> c.lh == [];
  }

  lemma {:induction false} InvDiskWrite(lay: Layout, h: map<int, Block>, s: State)
    requires Inv(lay, h, s) && StepDiskWrite(lay, s).Next?
    ensures Inv(lay, h, StepDiskWrite(lay, s).s)
  {
    hide Quiet, CommitImage, Cleaned;
    assert Unused([]) == 0;
    QuietBounds(lay, h, s.phase.base, s.writes, s.phase.since);
  }

  lemma {:induction false} QuietBounds(lay: Layout, h: map<int, Block>, c: Core, ws: seq<Write>, mark: nat)
    requires Quiet(lay, h, c, ws, mark)
    ensures ValidCore(lay, c) && |c.lh| <= LOGSIZE && mark <= |ws| && Distinct(c.lh)
  {
  }

  lemma {:induction false} QuietEmpty(lay: Layout, h: map<int, Block>, c: Core, ws: seq<Write>)
    requires LogEmpty(lay, c.disk) && c.cache == map[] && c.lh == [] && Home(lay, c.disk) == Apply(h, ws)
    ensures Quiet(lay, h, c, ws, |ws|)
  {
    hide Apply;
    assert ws[..|ws|] == ws;
    assert LogicalHome(lay, c.disk, map[]) == Home(lay, c.disk);
  }

  /** When commit() returns, every write so far is on disk and nothing is pinned. */
  lemma {:induction false} CommitEmpties(lay: Layout, h: map<int, Block>, base: Core, ws: seq<Write>, since: nat)
    requires Quiet(lay, h, base, ws, since) && base.lh != []
    ensures var c := CommitCore(lay, base, CommitWrites(|base.lh|));
            LogEmpty(lay, c.disk) && c.cache == map[] && c.lh == [] && Home(lay, c.disk) == Apply(h, ws)
  {
    hide Home, LogicalHome, Apply, Loggable, CommitImage, HeaderOf, NewHome, LogEmpty;
    CommitDone(lay, base.disk, base.cache, base.lh);
    QuietNewHome(lay, h, base, ws, since);
  }

  lemma {:induction false} InvFinish(lay: Layout, h: map<int, Block>, s: State)
    requires Inv(lay, h, s) && StepFinish(s).Next?
    ensures Inv(lay, h, StepFinish(s).s)
    ensures StepFinish(s).s.core.lh == []
  {
    hide Home, LogicalHome, Apply, Loggable, CommitImage, CommitCore;
    var base := s.phase.base;
    if base.lh == [] {
      CommitZero(lay, base);
    } else {
      CommitEmpties(lay, h, base, s.writes, s.phase.since);
      QuietEmpty(lay, h, s.core.(committing := false), s.writes);
    }
  }

  lemma {:induction false} InvCrash(lay: Layout, h: map<int, Block>, s: State, boots: seq<nat>)
    requires Inv(lay, h, s) && s.mark <= |s.writes| && StepCrash(lay, s, boots).Next?
    ensures Inv(lay, h, StepCrash(lay, s, boots).s)
  {
    hide Home, LogicalHome, Apply, Quiet;
    CrashHome(lay, h, s, boots);
    var s' := StepCrash(lay, s, boots).s;
    QuietEmpty(lay, h, s'.core, s'.writes);
  }

  lemma {:induction false} InvStep(lay: Layout, h: map<int, Block>, s: State, e: Event)
    requires Inv(lay, h, s) && Step(lay, s, e).Next?
    ensures Inv(lay, h, Step(lay, s, e).s)
  {
    hide Inv, StepBegin, StepLog, StepDiskWrite, StepFinish;
    match e
    case Begin => InvBegin(lay, h, s);
    case Log(i, b, data) => InvLog(lay, h, s, i, b, data);
    case End(i) => InvEnd(lay, h, s, i);
    case DiskWrite => InvDiskWrite(lay, h, s);
    case Finish => InvFinish(lay, h, s);
    case Crash(boots) => InvCrash(lay, h, s, boots);
  }

  // ---------------------------------------------------------------- main results

  /** The invariant holds in every reachable state. */
  lemma {:induction false} RunInv(lay: Layout, d: Disk, es: seq<Event>)
    requires Recoverable(lay, d) && Run(lay, Init(lay, d), es).Next?
    ensures Inv(lay, Home(lay, Recover(lay, d)), Run(lay, Init(lay, d), es).s)
  {
    hide Inv, Step, Init, Recover, Home;
    if es == [] {
      InvInit(lay, d);
    } else {
      RunInv(lay, d, es[..|es| - 1]);
      var t := Run(lay, Init(lay, d), es[..|es| - 1]).s;
      InvStep(lay, Home(lay, Recover(lay, d)), t, es[|es| - 1]);
    }
  }

  /** Atomic, durable system calls. Crash the machine at any point of any run, and crash it again
      during recovery any number of times: the home blocks that finally come back are those of the
      committed prefix of the log_writes, and no system call has writes on both sides of its end. */
  lemma {:induction false} CrashSafety(lay: Layout, d: Disk, es: seq<Event>, boots: seq<nat>)
    requires Recoverable(lay, d) && Run(lay, Init(lay, d), es).Next?
    ensures var s := Run(lay, Init(lay, d), es).s;
            && Recoverable(lay, s.core.disk) && s.mark <= |s.writes|
            && (CrashChain(lay, s.core.disk, boots) ==>
                  Home(lay, Recover(lay, AfterCrashes(lay, s.core.disk, boots)))
                  == Apply(Home(lay, Recover(lay, d)), s.writes[..s.mark]))
            && (forall i, j :: 0 <= i < s.mark <= j < |s.writes| ==> s.writes[i].op != s.writes[j].op)
            && (forall i, j :: 0 <= i < s.mark && 0 <= j < |s.active| ==> s.writes[i].op != s.active[j].id)
  {
    hide Init, Run, Recover, Home, Apply, CrashChain, Quiet;
    RunInv(lay, d, es);
    CrashHome(lay, Home(lay, Recover(lay, d)), Run(lay, Init(lay, d), es).s, boots);
  }

  /** A commit runs only while no system call is active, and the log never holds more blocks
      than the active calls' reservations leave room for. */
  lemma {:induction false} GroupCommit(lay: Layout, d: Disk, es: seq<Event>)
    requires Recoverable(lay, d) && Run(lay, Init(lay, d), es).Next?
    ensures var s := Run(lay, Init(lay, d), es).s;
            && (s.phase.Committing? ==> s.active == [])
            && (s.phase.Committing? <==> s.core.committing)
            && s.core.outstanding == |s.active|
            && Distinct(s.core.lh)
            && |s.core.lh| + Unused(s.active) <= LOGSIZE
  {
    hide Init, Run, Recover, Home, Apply, Unused, LogicalHome, BlockSet;
    RunInv(lay, d, es);
  }

  /** begin_op makes its caller wait exactly while a commit runs or the log might not hold another
      MAXOPBLOCKS blocks for every call then active; otherwise exactly one call joins the transaction,
      whatever it holds already. A call that finds no other is always admitted. */
  lemma {:induction false} AdmittedExactly(lay: Layout, d: Disk, es: seq<Event>)
    requires Recoverable(lay, d) && Run(lay, Init(lay, d), es).Next?
    ensures var s := Run(lay, Init(lay, d), es).s;
            var waits := s.phase.Committing? || |s.core.lh| + (|s.active| + 1) * MAXOPBLOCKS > LOGSIZE;
            && Step(lay, s, Begin).Next?
            && var t := Step(lay, s, Begin).s;
               && (waits <==> t == s)
               && (!waits ==>
                     && t.active == s.active + [Op(s.nextOp, {})] && t.nextOp == s.nextOp + 1
                     && t.core == s.core.(outstanding := |t.active|)
                     && t.phase == s.phase && t.writes == s.writes && t.mark == s.mark)
               && (s.phase.Idle? && s.active == [] ==> !waits)
  {
    hide Init, Run, Recover, Apply, LogicalHome, Home, Quiet, BlockSet, Unused;
    RunInv(lay, d, es);
  }

  /** The last call out, and no other, starts a commit, of every block the transaction has logged. */
  lemma {:induction false} LastOutCommits(lay: Layout, d: Disk, es: seq<Event>, i: nat)
    requires Recoverable(lay, d) && Run(lay, Init(lay, d), es).Next? && i < |Run(lay, Init(lay, d), es).s.active|
    ensures var s := Run(lay, Init(lay, d), es).s;
            && s.phase.Idle? && Step(lay, s, End(i)).Next?
            && var t := Step(lay, s, End(i)).s;
               && t.active == s.active[..i] + s.active[i + 1..] && t.writes == s.writes && t.mark == s.mark
               && t.core.lh == s.core.lh && t.core.cache == s.core.cache && t.core.disk == s.core.disk
               && (t.phase.Committing? <==> |s.active| == 1)
               && (t.phase.Committing? ==> t.phase.base == t.core && t.phase.done == 0)
  {
    hide Init, Run, Recover, Apply, LogicalHome, Home, Quiet, BlockSet, Unused;
    RunInv(lay, d, es);
  }

  /** Nothing else holds up a call, and a commit goes on to its end: a step is impossible only if there is no such
      call, the call has used up its blocks, or the commit is not at that point. */
  lemma {:induction false} NeverStuck(lay: Layout, d: Disk, es: seq<Event>, e: Event)
    requires Recoverable(lay, d) && Run(lay, Init(lay, d), es).Next?
    ensures var s := Run(lay, Init(lay, d), es).s;
            Step(lay, s, e).Disabled? <==>
              match e
              case Begin => false
              case Log(i, b, _) => !(i < |s.active| && HomeBlock(lay, |s.core.disk|, b) && |s.active[i].logged + {b as int}| <= MAXOPBLOCKS)
              case End(i) => i >= |s.active|
              case DiskWrite => s.phase.Idle? || s.phase.done == CommitWrites(|s.phase.base.lh|)
              case Finish => s.phase.Idle? || s.phase.done < CommitWrites(|s.phase.base.lh|)
              case Crash(boots) => !CrashChain(lay, s.core.disk, boots)
  {
    hide Init, Run, Recover, Apply, LogicalHome, Home, Calls, BlockSet, Unused, CommitCore, CrashChain, LogEmpty, Loggable, HomeBlock, AfterCrashes, CommitWrites;
    RunInv(lay, d, es);
    CrashHome(lay, Home(lay, Recover(lay, d)), Run(lay, Init(lay, d), es).s, []);
  }

  /** The running system sees every log_write at once, and whenever no call is active and no commit runs
      the disk alone holds all of them. */
  lemma {:induction false} Durability(lay: Layout, d: Disk, es: seq<Event>)
    requires Recoverable(lay, d) && Run(lay, Init(lay, d), es).Next?
    ensures var s := Run(lay, Init(lay, d), es).s;
            s.phase.Idle? ==>
              && LogicalHome(lay, s.core.disk, s.core.cache) == Apply(Home(lay, Recover(lay, d)), s.writes)
              && (s.active == [] ==> s.core.lh == [])
              && (s.core.lh == [] ==> Home(lay, s.core.disk) == Apply(Home(lay, Recover(lay, d)), s.writes))
  {
    hide Init, Run, Recover, Apply;
    RunInv(lay, d, es);
  }

  /** No home block is written before the header of its transaction is on disk. */
  lemma {:induction false} WriteAhead(lay: Layout, d: Disk, es: seq<Event>, e: Event)
    requires Recoverable(lay, d) && Run(lay, Init(lay, d), es).Next? && !e.Crash?
    requires Step(lay, Run(lay, Init(lay, d), es).s, e).Next?
    ensures var s := Run(lay, Init(lay, d), es).s;
            Home(lay, Step(lay, s, e).s.core.disk) != Home(lay, s.core.disk) ==>
              s.phase.Committing? && |s.phase.base.lh| < s.phase.done
  {
    hide Init, Run, Recover, Apply, LogicalHome, Home, CommitImage, Calls, Cleaned, BlockSet, Distinct;
    RunInv(lay, d, es);
    var s := Run(lay, Init(lay, d), es).s;
    if e.DiskWrite? && s.phase.done <= |s.phase.base.lh| {
      var base := s.phase.base;
      HomeUntouchedBeforeHeader(lay, base.disk, base.cache, base.lh, s.phase.done);
      HomeUntouchedBeforeHeader(lay, base.disk, base.cache, base.lh, s.phase.done + 1);
    }
  }

  /** Of the three panics in the log, only "too big a transaction" is reachable, and exactly when
      a call logs a block while the transaction has LOGSIZE or log.size - 1 blocks. */
  lemma {:induction false} PanicsExactlyWhenFull(lay: Layout, d: Disk, es: seq<Event>, e: Event)
    requires Recoverable(lay, d) && Run(lay, Init(lay, d), es).Next?
    ensures var s := Run(lay, Init(lay, d), es).s;
            && (Step(lay, s, e).Panic? <==>
                  e.Log? && WithinBudget(lay, s, e.i, e.b) && (|s.core.lh| >= LOGSIZE || |s.core.lh| >= lay.size - 1))
            && (Step(lay, s, e).Panic? ==> Step(lay, s, e).why == TooBig)
  {
    hide Init, Run, Recover, Apply, LogicalHome, Home, Quiet, BlockSet, Unused;
    RunInv(lay, d, es);
  }

  /** With a log of more than LOGSIZE blocks, the reservation made by begin_op always leaves room
      for a block that is new to the transaction. */
  lemma {:induction false} ReservationSuffices(lay: Layout, d: Disk, es: seq<Event>, i: nat, b: Word, data: Block)
    requires Recoverable(lay, d) && Run(lay, Init(lay, d), es).Next? && LOGSIZE < lay.size
    ensures var s := Run(lay, Init(lay, d), es).s;
            WithinBudget(lay, s, i, b) && b !in s.core.lh ==> Step(lay, s, Log(i, b, data)).Next?
  {
    hide Init, Run, Recover, Apply, LogicalHome, Home, Quiet, BlockSet, Unused;
    RunInv(lay, d, es);
    var s := Run(lay, Init(lay, d), es).s;
    if WithinBudget(lay, s, i, b) && b !in s.core.lh {
      InBlockSet(s.core.lh, b);
      UnusedAtLeast(s.active, i);
    }
  }

  lemma {:induction false} UnusedAtLeast(active: seq<Op>, i: nat)
    requires i < |active| && forall j :: 0 <= j < |active| ==> |active[j].logged| <= MAXOPBLOCKS
    ensures Unused(active) >= MAXOPBLOCKS - |active[i].logged|
  {
    var n := |active| - 1;
    if i < n {
      UnusedAtLeast(active[..n], i);
    } else {
      UnusedNonNegative(active[..n]);
    }
  }

  lemma {:induction false} UnusedNonNegative(active: seq<Op>)
    requires forall j :: 0 <= j < |active| ==> |active[j].logged| <= MAXOPBLOCKS
    ensures Unused(active) >= 0
  {
    if active != [] {
      UnusedNonNegative(active[..|active| - 1]);
    }
  }

  // ---------------------------------------------------------------- the panic is reachable

  /** Three calls logging one new block after another. */
  function Fill(first: Word, k: nat): (es: seq<Event>)
    requires first + k <= 0x1_0000_0000
  {
    if k == 0 then [Begin, Begin, Begin]
    else Fill(first, k - 1) + [Log((k - 1) / MAXOPBLOCKS, first + k - 1, seq(512, _ => 0))]
  }

  predicate Filled(lay: Layout, len: nat, first: Word, s: State, k: nat) {
    && |s.core.disk| == len && !s.core.committing && s.core.outstanding == 3
    && |s.core.lh| == k && (forall i :: 0 <= i < k ==> s.core.lh[i] == first + i)
    && |s.active| == 3
    && forall j :: 0 <= j < 3 ==>
         && |s.active[j].logged| == (if k <= 10 * j then 0 else if k >= 10 * j + 10 then 10 else k - 10 * j)
         && (forall b :: b in s.active[j].logged ==> b < first + k)
         && (k > 0 ==> first as int in s.active[0].logged)
  }

  lemma {:induction false} FillStep(lay: Layout, len: nat, first: Word, s: State, k: nat)
    requires Filled(lay, len, first, s, k) && k < LOGSIZE && k < lay.size - 1
    requires lay.start + lay.size <= first && first + k < len && first + k < 0x1_0000_0000
    ensures var r := StepLog(lay, s, k / MAXOPBLOCKS, first + k, seq(512, _ => 0));
            r.Next? && Filled(lay, len, first, r.s, k + 1)
  {
    var b := first + k;
    var op := s.active[k / 10];
    assert b !in op.logged;
    assert b !in s.core.lh;
  }

  lemma {:induction false} FillBegins(lay: Layout, d: Disk, first: Word)
    requires Recoverable(lay, d)
    ensures var r := Run(lay, Init(lay, d), [Begin, Begin, Begin]);
            r.Next? && Filled(lay, |d|, first, r.s, 0)
  {
    hide Recover;
    var s := Init(lay, d);
    assert [Begin, Begin, Begin][..2] == [Begin, Begin];
    assert [Begin, Begin][..1] == [Begin];
    assert [Begin][..0] == [];
    assert Run(lay, s, [Begin]) == StepBegin(s);
    assert Run(lay, s, [Begin, Begin]) == StepBegin(StepBegin(s).s);
  }

  lemma {:induction false} FillRun(lay: Layout, d: Disk, first: Word, k: nat)
    requires Recoverable(lay, d) && k <= LOGSIZE && k < lay.size
    requires lay.start + lay.size <= first && first + k <= |d| && first + k <= 0x1_0000_0000
    ensures var r := Run(lay, Init(lay, d), Fill(first, k));
            r.Next? && Filled(lay, |d|, first, r.s, k)
  {
    hide Init, Recoverable, Filled, StepLog;
    if k == 0 {
      FillBegins(lay, d, first);
    } else {
      FillRun(lay, d, first, k - 1);
      var es := Fill(first, k);
      assert es[..|es| - 1] == Fill(first, k - 1);
      FillStep(lay, |d|, first, Run(lay, Init(lay, d), Fill(first, k - 1)).s, k - 1);
    }
  }

  /** With log.size == LOGSIZE, as mkfs lays it out, three calls that each stay within MAXOPBLOCKS
      can bring the kernel down: begin_op reserves LOGSIZE blocks but only LOGSIZE - 1 fit. */
  lemma {:induction false} TooBigIsReachable(lay: Layout, d: Disk)
    requires Recoverable(lay, d) && lay.size == LOGSIZE
    requires lay.start + lay.size + LOGSIZE <= |d| && lay.start + lay.size + LOGSIZE <= 0x1_0000_0000
    ensures Run(lay, Init(lay, d), Fill(lay.start + lay.size, LOGSIZE)) == Panic(TooBig)
  {
    hide Init, Recoverable, Filled, StepLog;
    var first := lay.start + lay.size;
    FillRun(lay, d, first, LOGSIZE - 1);
    var es := Fill(first, LOGSIZE);
    assert es[..|es| - 1] == Fill(first, LOGSIZE - 1);
    OneTooMany(lay, |d|, first, Run(lay, Init(lay, d), Fill(first, LOGSIZE - 1)).s);
  }

  lemma {:induction false} OneTooMany(lay: Layout, len: nat, first: Word, s: State)
    requires Filled(lay, len, first, s, LOGSIZE - 1) && lay.size == LOGSIZE
    requires lay.start + lay.size <= first && first + LOGSIZE <= len && first + LOGSIZE <= 0x1_0000_0000
    ensures StepLog(lay, s, (LOGSIZE - 1) / MAXOPBLOCKS, first + LOGSIZE - 1, seq(512, _ => 0)) == Panic(TooBig)
  {
    assert |s.active[2].logged| == 9;
  }

  /** With more than LOGSIZE blocks all the new blocks fit, but then a call that logs a block of its own
      once more brings the kernel down: log_write looks at the count before it looks for the block. */
  lemma {:induction false} RelogIsReachable(lay: Layout, d: Disk)
    requires Recoverable(lay, d) && lay.size > LOGSIZE
    requires lay.start + lay.size + LOGSIZE <= |d| && lay.start + lay.size + LOGSIZE <= 0x1_0000_0000
    ensures var first := lay.start + lay.size;
            var es := Fill(first, LOGSIZE);
            var r := Run(lay, Init(lay, d), es);
            && r.Next? && |r.s.active| == 3 && first as int in r.s.active[0].logged && first in r.s.core.lh
            && Run(lay, Init(lay, d), es + [Log(0, first, seq(512, _ => 0))]) == Panic(TooBig)
  {
    hide Init, Recoverable, Filled, StepLog, Fill, Run;
    var first := lay.start + lay.size;
    FillRun(lay, d, first, LOGSIZE);
    OnceMore(lay, |d|, first, Run(lay, Init(lay, d), Fill(first, LOGSIZE)).s);
    RunSnoc(lay, Init(lay, d), Fill(first, LOGSIZE), Log(0, first, seq(512, _ => 0)));
  }

  lemma {:induction false} RunSnoc(lay: Layout, s: State, es: seq<Event>, e: Event)
    requires Run(lay, s, es).Next?
    ensures Run(lay, s, es + [e]) == Step(lay, Run(lay, s, es).s, e)
  {
    hide Step;
    assert (es + [e])[..|es|] == es;
  }

  lemma {:induction false} OnceMore(lay: Layout, len: nat, first: Word, s: State)
    requires Filled(lay, len, first, s, LOGSIZE) && lay.start + lay.size <= first < len
    ensures |s.active| == 3 && first as int in s.active[0].logged && first in s.core.lh
    ensures StepLog(lay, s, 0, first, seq(512, _ => 0)) == Panic(TooBig)
  {
    assert s.core.lh[0] == first;
    assert s.active[0].logged + {first as int} == s.active[0].logged;
  }
}
