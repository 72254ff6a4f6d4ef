/** Processes and CPUs of proc.c as a system of atomic steps, in any interleaving. */
module ProcRuns {
  import opened Options
  import opened ProcTable

  /** `cpu[c]` is the process CPU c runs. `exited` and `reaped` record the pids that have gone through
      exit() and that wait() has returned. */
  datatype Sys = Sys(proc: Table, cpu: seq<Option<nat>>, nextpid: int, init: nat, exited: set<int>, reaped: seq<int>)

  datatype Event =
    | ForkAlloc(c: nat)     // allocproc()
    | ForkFail(c: nat)      // no memory for the child
    | ForkParent(c: nat)    // np->parent = curproc
    | ForkDone(c: nat)      // np->state = RUNNABLE
    | Exit(c: nat)
    | Wait(c: nat)
    | Sleep(c: nat, addr: nat)
    | Yield(c: nat)
    | Schedule(c: nat, i: nat)
    | Wakeup(addr: nat)
    | Kill(pid: int)

  // ---------------------------------------------------------------- steps

  /** CPU `c` is running some process. */
  predicate Running(s: Sys, c: nat) {
    c < |s.cpu| && s.cpu[c].Some? && s.cpu[c].value < |s.proc|
  }

  function Cur(s: Sys, c: nat): (i: nat)
    requires Running(s, c)
    ensures i < |s.proc|
  {
    s.cpu[c].value
  }

  /** CPU `c` goes back to its scheduler. */
  function Idle(s: Sys, c: nat): (r: Sys)
    requires c < |s.cpu|
  {
    s.(cpu := s.cpu[c := None])
  }

  function SetProc(s: Sys, i: nat, p: Proc): (r: Sys)
    requires i < |s.proc|
  {
    s.(proc := s.proc[i := p])
  }

  function StepForkAlloc(s: Sys, c: nat): (r: Option<Sys>) {
    if !Running(s, c) || s.proc[Cur(s, c)].embryo.Some? then None
    else
      var cur, e := Cur(s, c), FirstUnused(s.proc, 0);
      if e.None? then Some(s)
      else
        var t := s.proc[e.value := s.proc[e.value].(state := EMBRYO, pid := s.nextpid)];
        Some(s.(proc := t[cur := t[cur].(embryo := Some(e.value))], nextpid := s.nextpid + 1))
  }

  /** The process CPU `c` runs is in the middle of fork(), with this child. */
  predicate Forking(s: Sys, c: nat) {
    Running(s, c) && s.proc[Cur(s, c)].embryo.Some? && s.proc[Cur(s, c)].embryo.value < |s.proc|
  }

  function Child(s: Sys, c: nat): (e: nat)
    requires Forking(s, c)
    ensures e < |s.proc|
  {
    s.proc[Cur(s, c)].embryo.value
  }

  function StepForkFail(s: Sys, c: nat): (r: Option<Sys>) {
    if !Forking(s, c) || s.proc[Child(s, c)].parent.Some? then None
    else
      var t := SetProc(s, Child(s, c), s.proc[Child(s, c)].(state := UNUSED));
      Some(SetProc(t, Cur(s, c), t.proc[Cur(s, c)].(embryo := None)))
  }

  function StepForkParent(s: Sys, c: nat): (r: Option<Sys>) {
    if !Forking(s, c) then None
    else Some(SetProc(s, Child(s, c), s.proc[Child(s, c)].(parent := Some(Cur(s, c)))))
  }

  function StepForkDone(s: Sys, c: nat): (r: Option<Sys>) {
    if !Forking(s, c) || s.proc[Child(s, c)].parent.None? then None
    else
      var t := SetProc(s, Child(s, c), s.proc[Child(s, c)].(state := RUNNABLE));
      Some(SetProc(t, Cur(s, c), t.proc[Cur(s, c)].(embryo := None)))
  }

  /** The init process panics instead of exiting. */
  function StepExit(s: Sys, c: nat): (r: Option<Sys>) {
    if !Running(s, c) || s.proc[Cur(s, c)].embryo.Some? || Cur(s, c) == s.init then None
    else
      var cur := Cur(s, c);
      Some(Idle(s.(proc := ExitTable(s.proc, cur, s.init), exited := s.exited + {s.proc[cur].pid}), c))
  }

  function StepWait(s: Sys, c: nat): (r: Option<Sys>) {
    if !Running(s, c) || s.proc[Cur(s, c)].embryo.Some? then None
    else
      var (o, t) := WaitTable(s.proc, Cur(s, c));
      match o
      case Pid(pid) => Some(s.(proc := t, reaped := s.reaped + [pid]))
      case NoChild => Some(s)
      case Slept => Some(Idle(s.(proc := t), c))
  }

  function StepSleep(s: Sys, c: nat, addr: nat): (r: Option<Sys>) {
    if !Running(s, c) then None
    else Some(Idle(SetProc(s, Cur(s, c), s.proc[Cur(s, c)].(chan := OtherChan(addr), state := SLEEPING)), c))
  }

  function StepYield(s: Sys, c: nat): (r: Option<Sys>) {
    if !Running(s, c) then None
    else Some(Idle(SetProc(s, Cur(s, c), s.proc[Cur(s, c)].(state := RUNNABLE)), c))
  }

  /** scheduler() switches to a runnable process, which clears its channel if it comes out of sleep(). */
  function StepSchedule(s: Sys, c: nat, i: nat): (r: Option<Sys>) {
    if c >= |s.cpu| || s.cpu[c].Some? || i >= |s.proc| || !s.proc[i].state.RUNNABLE? then None
    else Some(SetProc(s, i, s.proc[i].(state := RUNNING, chan := NoChan)).(cpu := s.cpu[c := Some(i)]))
  }

  function StepKill(s: Sys, pid: int): (r: Option<Sys>) {
    var k := FirstPid(s.proc, pid, 0);
    if k.None? then Some(s) else Some(SetProc(s, k.value, Killed(s.proc[k.value])))
  }

  function Step(s: Sys, e: Event): (r: Option<Sys>) {
    match e
    case ForkAlloc(c) => StepForkAlloc(s, c)
    case ForkFail(c) => StepForkFail(s, c)
    case ForkParent(c) => StepForkParent(s, c)
    case ForkDone(c) => StepForkDone(s, c)
    case Exit(c) => StepExit(s, c)
    case Wait(c) => StepWait(s, c)
    case Sleep(c, addr) => StepSleep(s, c, addr)
    case Yield(c) => StepYield(s, c)
    case Schedule(c, i) => StepSchedule(s, c, i)
    case Wakeup(addr) => Some(s.(proc := Wakeup1(s.proc, OtherChan(addr))))
    case Kill(pid) => StepKill(s, pid)
  }

  /** The state after a sequence of events; None if one of them could not happen. */
  function Run(s: Sys, es: seq<Event>): (r: Option<Sys>) {
    if es == [] then Some(s)
    else
      var t := Run(s, es[..|es| - 1]);
      if t.None? then None else Step(t.value, es[|es| - 1])
  }

  /** After userinit(): one process, ready to run, and nothing else. */
  predicate Init(s: Sys) {
    && s.init < |s.proc| && s.nextpid == 2
    && s.proc[s.init] == Proc(RUNNABLE, 1, None, NoChan, false, None)
    && (forall i :: 0 <= i < |s.proc| && i != s.init ==> s.proc[i] == Proc(UNUSED, 0, None, NoChan, false, None))
    && (forall c :: 0 <= c < |s.cpu| ==> s.cpu[c].None?)
    && s.exited == {} && s.reaped == []
  }

  // ---------------------------------------------------------------- invariant

  /** A process that has started and not exited. */
  predicate Alive(p: Proc) {
    p.state.SLEEPING? || p.state.RUNNABLE? || p.state.RUNNING?
  }

  /** Family relations of slot `i`. */
  ghost predicate FamilyOk(t: Table, init: nat, i: nat)
    requires i < |t|
  {
    var p := t[i];
    && (p.parent.Some? ==> p.parent.value < |t| && Alive(t[p.parent.value]) && p.parent.value != i)
    && (p.state.UNUSED? ==> p.parent.None?)
    && ((Alive(p) || p.state.ZOMBIE?) && i != init ==> p.parent.Some?)
    && (p.embryo.Some? ==>
          p.embryo.value < |t| && t[p.embryo.value].state.EMBRYO? && Alive(p)
          && (t[p.embryo.value].parent.None? || t[p.embryo.value].parent == Some(i)))
  }

  /** No process sleeps in wait() while a child of its is a zombie. */
  ghost predicate NoLostWakeup(t: Table) {
    forall i, j :: 0 <= i < |t| && 0 <= j < |t| && SleepsOn(t[i], ProcChan(i)) && t[j].state.ZOMBIE? ==> t[j].parent != Some(i)
  }

  ghost predicate Family(t: Table, init: nat) {
    && init < |t| && Alive(t[init]) && t[init].parent.None?
    && (forall i :: 0 <= i < |t| ==> FamilyOk(t, init, i))
    && (forall i, j :: 0 <= i < j < |t| && t[i].embryo.Some? ==> t[i].embryo != t[j].embryo)
  }

  /** Pids in use are positive, distinct and already given out; a slot given back has pid 0 or one that
      nobody else has. */
  ghost predicate Pids(t: Table, nextpid: int) {
    && 0 < nextpid
    && (forall i :: 0 <= i < |t| ==> 0 <= t[i].pid < nextpid)
    && (forall i :: 0 <= i < |t| && !t[i].state.UNUSED? ==> 0 < t[i].pid)
    && (forall i, j :: 0 <= i < j < |t| && 0 < t[i].pid ==> t[i].pid != t[j].pid)
  }

  /** A process is RUNNING exactly when one CPU, and only one, has it. */
  ghost predicate Cpus(t: Table, cpu: seq<Option<nat>>) {
    && (forall c :: 0 <= c < |cpu| && cpu[c].Some? ==> cpu[c].value < |t| && t[cpu[c].value].state.RUNNING?)
    && (forall c, d :: 0 <= c < d < |cpu| && cpu[c].Some? ==> cpu[c] != cpu[d])
    && (forall i :: 0 <= i < |t| && t[i].state.RUNNING? ==> OnSomeCpu(cpu, i))
  }

  ghost predicate OnSomeCpu(cpu: seq<Option<nat>>, i: nat) {
    exists c :: 0 <= c < |cpu| && cpu[c] == Some(i)
  }

  ghost predicate ZombiePid(t: Table, pid: int) {
    exists i :: 0 <= i < |t| && t[i].state.ZOMBIE? && t[i].pid == pid
  }

  /** Every exit is waited for at most once: the pids that have exited are those reaped, each once,
      and those of the zombies still in the table. */
  ghost predicate Exits(t: Table, nextpid: int, exited: set<int>, reaped: seq<int>) {
    && (forall k :: 0 <= k < |reaped| ==> reaped[k] < nextpid && reaped[k] in exited)
    && (forall i, k :: 0 <= i < |t| && !t[i].state.UNUSED? && 0 <= k < |reaped| ==> t[i].pid != reaped[k])
    && (forall j, k :: 0 <= j < k < |reaped| ==> reaped[j] != reaped[k])
    && (forall pid :: pid in exited ==> pid in reaped || ZombiePid(t, pid))
    && (forall i :: 0 <= i < |t| && t[i].state.ZOMBIE? ==> t[i].pid in exited)
    && (forall i :: 0 <= i < |t| && (Alive(t[i]) || t[i].state.EMBRYO?) ==> t[i].pid !in exited)
    && (forall pid :: pid in exited ==> pid < nextpid)
  }

  ghost predicate Inv(s: Sys) {
    && Family(s.proc, s.init) && NoLostWakeup(s.proc)
    && Pids(s.proc, s.nextpid) && Cpus(s.proc, s.cpu)
    && Exits(s.proc, s.nextpid, s.exited, s.reaped)
  }

  lemma {:induction false} InvInit(s: Sys)
    requires Init(s)
    ensures Inv(s)
  {
  }

  // ---------------------------------------------------------------- exit keeps the invariant

  /** What exit() by `cur` does to slot `i`. */
  ghost predicate ExitEffect(p: Proc, r: Proc, i: nat, cur: nat, init: nat) {
    && r.pid == p.pid && r.embryo == p.embryo && r.chan == p.chan
    && r.parent == (if p.parent == Some(cur) then Some(init) else p.parent)
    && (i == cur ==> r.state.ZOMBIE?)
    && (i != cur ==> r.state == p.state || (p.state.SLEEPING? && r.state.RUNNABLE?))
  }

  lemma {:induction false} ExitEffects(t: Table, cur: nat, init: nat)
    requires cur < |t|
    ensures forall i :: 0 <= i < |t| ==> ExitEffect(t[i], ExitTable(t, cur, init)[i], i, cur, init)
  {
    hide HasZombie;
  }

  lemma {:induction false} FamilyExit(t: Table, init: nat, cur: nat)
    requires Family(t, init) && cur < |t| && t[cur].state.RUNNING? && cur != init && t[cur].embryo.None?
    ensures Family(ExitTable(t, cur, init), init)
  {
    ExitEffects(t, cur, init);
    hide ExitTable;
    var r := ExitTable(t, cur, init);
    hide FamilyOk;
    forall i | 0 <= i < |r|
      ensures FamilyOk(r, init, i)
    {
      FamilyExitAt(t, r, init, cur, i);
    }
  }

  lemma {:induction false} FamilyExitAt(t: Table, r: Table, init: nat, cur: nat, i: nat)
    requires |r| == |t| && forall j :: 0 <= j < |t| ==> ExitEffect(t[j], r[j], j, cur, init)
    requires cur < |t| && i < |t| && init < |t| && init != cur && Alive(t[init]) && t[cur].embryo.None? && t[cur].state.RUNNING?
    requires t[init].parent.None?
    requires FamilyOk(t, init, i)
    ensures FamilyOk(r, init, i)
  {
    assert ExitEffect(t[i], r[i], i, cur, init);
    if t[i].parent.Some? {
      assert ExitEffect(t[t[i].parent.value], r[t[i].parent.value], t[i].parent.value, cur, init);
    }
    if t[i].embryo.Some? {
      assert ExitEffect(t[t[i].embryo.value], r[t[i].embryo.value], t[i].embryo.value, cur, init);
    }
    assert ExitEffect(t[init], r[init], init, cur, init);
  }

  /** The parent is woken before its child becomes a zombie, and init before it adopts one. */
  lemma {:induction false} WakeupExit(t: Table, init: nat, cur: nat)
    requires NoLostWakeup(t) && cur < |t| && init != cur && t[cur].parent != Some(cur)
    ensures NoLostWakeup(ExitTable(t, cur, init))
  {
    var r := ExitTable(t, cur, init);
    forall i, j | 0 <= i < |r| && 0 <= j < |r| && SleepsOn(r[i], ProcChan(i)) && r[j].state.ZOMBIE?
      ensures r[j].parent != Some(i)
    {
      assert r[i] == ExitSlot(t, cur, init, i) && r[j] == ExitSlot(t, cur, init, j);
      assert SleepsOn(t[i], ProcChan(i));
      if j == cur {
        assert t[cur].parent != Some(i);
      } else {
        assert t[j].state.ZOMBIE?;
      }
    }
  }

  lemma {:induction false} PidsExit(t: Table, init: nat, cur: nat, nextpid: int)
    requires Pids(t, nextpid) && cur < |t| && t[cur].state.RUNNING?
    ensures Pids(ExitTable(t, cur, init), nextpid)
  {
    ExitEffects(t, cur, init);
    hide ExitTable;
  }

  lemma {:induction false} CpusExit(t: Table, init: nat, cur: nat, cpu: seq<Option<nat>>, c: nat)
    requires Cpus(t, cpu) && c < |cpu| && cpu[c] == Some(cur) && cur < |t|
    ensures Cpus(ExitTable(t, cur, init), cpu[c := None])
  {
    ExitEffects(t, cur, init);
    hide ExitTable;
    CpusRelease(t, ExitTable(t, cur, init), cpu, c, cur);
  }

  /** A process gives up its CPU; nobody else starts or stops running. */
  lemma {:induction false} CpusRelease(t: Table, r: Table, cpu: seq<Option<nat>>, c: nat, cur: nat)
    requires Cpus(t, cpu) && c < |cpu| && cpu[c] == Some(cur) && cur < |t| == |r| && !r[cur].state.RUNNING?
    requires forall i :: 0 <= i < |t| && i != cur ==> (r[i].state.RUNNING? <==> t[i].state.RUNNING?)
    ensures Cpus(r, cpu[c := None])
  {
    var cpu' := cpu[c := None];
    forall d | 0 <= d < |cpu'| && cpu'[d].Some?
      ensures cpu'[d].value < |r| && r[cpu'[d].value].state.RUNNING?
    {
      assert cpu[d].Some? && cpu[d] != cpu[c];
    }
    forall i | 0 <= i < |r| && r[i].state.RUNNING?
      ensures OnSomeCpu(cpu', i)
    {
      assert OnSomeCpu(cpu, i);
      var d :| 0 <= d < |cpu| && cpu[d] == Some(i);
      assert cpu'[d] == Some(i);
    }
  }

  lemma {:induction false} CpusSame(t: Table, r: Table, cpu: seq<Option<nat>>)
    requires Cpus(t, cpu) && |r| == |t|
    requires forall i :: 0 <= i < |t| ==> (r[i].state.RUNNING? <==> t[i].state.RUNNING?)
    ensures Cpus(r, cpu)
  {
  }

  lemma {:induction false} ExitsExit(t: Table, init: nat, cur: nat, nextpid: int, exited: set<int>, reaped: seq<int>)
    requires Exits(t, nextpid, exited, reaped) && Pids(t, nextpid) && cur < |t| && t[cur].state.RUNNING?
    ensures Exits(ExitTable(t, cur, init), nextpid, exited + {t[cur].pid}, reaped)
  {
    ExitEffects(t, cur, init);
    hide ExitTable;
    var r := ExitTable(t, cur, init);
    assert ExitEffect(t[cur], r[cur], cur, cur, init);
    forall pid | pid in exited + {t[cur].pid}
      ensures pid in reaped || ZombiePid(r, pid)
    {
      if pid == t[cur].pid {
        assert r[cur].state.ZOMBIE?;
      } else if pid !in reaped {
        assert ZombiePid(t, pid);
        var i :| 0 <= i < |t| && t[i].state.ZOMBIE? && t[i].pid == pid;
        assert ExitEffect(t[i], r[i], i, cur, init);
      }
    }
  }

  lemma {:induction false} InvExit(s: Sys, c: nat)
    requires Inv(s) && StepExit(s, c).Some?
    ensures Inv(StepExit(s, c).value)
  {
    var cur := Cur(s, c);
    assert s.proc[cur].state.RUNNING?;
    assert FamilyOk(s.proc, s.init, cur);
    hide Family, NoLostWakeup, Pids, Cpus, Exits, ExitTable;
    FamilyExit(s.proc, s.init, cur);
    WakeupExit(s.proc, s.init, cur);
    PidsExit(s.proc, s.init, cur, s.nextpid);
    CpusExit(s.proc, s.init, cur, s.cpu, c);
    ExitsExit(s.proc, s.init, cur, s.nextpid, s.exited, s.reaped);
  }

  // ---------------------------------------------------------------- steps that only change who runs or sleeps

  /** Only scheduling states of live processes, channels and kill flags differ. */
  ghost predicate Light(t: Table, r: Table) {
    |r| == |t| && forall i :: 0 <= i < |t| ==> LightSlot(t[i], r[i])
  }

  ghost predicate LightSlot(p: Proc, q: Proc) {
    && q.pid == p.pid && q.parent == p.parent && q.embryo == p.embryo
    && (Alive(q) <==> Alive(p)) && (!Alive(p) ==> q.state == p.state)
  }

  lemma {:induction false} FamilyLight(t: Table, r: Table, init: nat)
    requires Family(t, init) && Light(t, r)
    ensures Family(r, init)
  {
    assert LightSlot(t[init], r[init]);
    forall i | 0 <= i < |r|
      ensures FamilyOk(r, init, i)
    {
      assert FamilyOk(t, init, i) && LightSlot(t[i], r[i]);
      if t[i].parent.Some? {
        assert LightSlot(t[t[i].parent.value], r[t[i].parent.value]);
      }
      if t[i].embryo.Some? {
        assert LightSlot(t[t[i].embryo.value], r[t[i].embryo.value]);
      }
    }
    forall i, j | 0 <= i < j < |r| && r[i].embryo.Some?
      ensures r[i].embryo != r[j].embryo
    {
      assert LightSlot(t[i], r[i]) && LightSlot(t[j], r[j]);
    }
  }

  lemma {:induction false} PidsLight(t: Table, r: Table, nextpid: int)
    requires Pids(t, nextpid) && Light(t, r)
    ensures Pids(r, nextpid)
  {
  }

  lemma {:induction false} ExitsLight(t: Table, r: Table, nextpid: int, exited: set<int>, reaped: seq<int>)
    requires Exits(t, nextpid, exited, reaped) && Light(t, r)
    ensures Exits(r, nextpid, exited, reaped)
  {
    forall pid | pid in exited
      ensures pid in reaped || ZombiePid(r, pid)
    {
      if pid !in reaped {
        assert ZombiePid(t, pid);
        var i :| 0 <= i < |t| && t[i].state.ZOMBIE? && t[i].pid == pid;
        assert LightSlot(t[i], r[i]);
      }
    }
  }

  /** Whoever sleeps in wait() now did so before, or has just found no zombie child. */
  lemma {:induction false} WakeupLight(t: Table, r: Table)
    requires NoLostWakeup(t) && Light(t, r)
    requires forall i :: 0 <= i < |t| && SleepsOn(r[i], ProcChan(i)) ==> SleepsOn(t[i], ProcChan(i)) || !HasZombie(t, i)
    ensures NoLostWakeup(r)
  {
    forall i, j | 0 <= i < |r| && 0 <= j < |r| && SleepsOn(r[i], ProcChan(i)) && r[j].state.ZOMBIE?
      ensures r[j].parent != Some(i)
    {
      assert LightSlot(t[j], r[j]);
      assert t[j].state.ZOMBIE?;
    }
  }

  lemma {:induction false} InvLight(s: Sys, s': Sys)
    requires Inv(s) && s' == s.(proc := s'.proc, cpu := s'.cpu) && Light(s.proc, s'.proc) && Cpus(s'.proc, s'.cpu)
    requires forall i :: 0 <= i < |s.proc| && SleepsOn(s'.proc[i], ProcChan(i)) ==> SleepsOn(s.proc[i], ProcChan(i)) || !HasZombie(s.proc, i)
    ensures Inv(s')
  {
    hide Family, NoLostWakeup, Pids, Cpus, Exits, Light;
    FamilyLight(s.proc, s'.proc, s.init);
    PidsLight(s.proc, s'.proc, s.nextpid);
    ExitsLight(s.proc, s'.proc, s.nextpid, s.exited, s.reaped);
    WakeupLight(s.proc, s'.proc);
  }

  lemma {:induction false} InvSleep(s: Sys, c: nat, addr: nat)
    requires Inv(s) && StepSleep(s, c, addr).Some?
    ensures Inv(StepSleep(s, c, addr).value)
  {
    var s' := StepSleep(s, c, addr).value;
    CpusRelease(s.proc, s'.proc, s.cpu, c, Cur(s, c));
    hide Family, NoLostWakeup, Pids, Exits;
    InvLight(s, s');
  }

  lemma {:induction false} InvYield(s: Sys, c: nat)
    requires Inv(s) && StepYield(s, c).Some?
    ensures Inv(StepYield(s, c).value)
  {
    var s' := StepYield(s, c).value;
    CpusRelease(s.proc, s'.proc, s.cpu, c, Cur(s, c));
    hide Family, NoLostWakeup, Pids, Exits;
    InvLight(s, s');
  }

  lemma {:induction false} InvSchedule(s: Sys, c: nat, i: nat)
    requires Inv(s) && StepSchedule(s, c, i).Some?
    ensures Inv(StepSchedule(s, c, i).value)
  {
    hide Family, NoLostWakeup, Pids, Exits;
    var s' := StepSchedule(s, c, i).value;
    assert s'.cpu[c] == Some(i);
    forall d | 0 <= d < |s.cpu| && d != c && s.cpu[d].Some?
      ensures s.cpu[d].value != i
    {
    }
    forall k | 0 <= k < |s'.proc| && s'.proc[k].state.RUNNING?
      ensures OnSomeCpu(s'.cpu, k)
    {
      if k != i {
        assert OnSomeCpu(s.cpu, k);
        var d :| 0 <= d < |s.cpu| && s.cpu[d] == Some(k);
        assert s'.cpu[d] == Some(k);
      }
    }
    assert Cpus(s'.proc, s'.cpu);
    InvLight(s, s');
  }

  lemma {:induction false} InvWakeup(s: Sys, addr: nat)
    requires Inv(s)
    ensures Inv(s.(proc := Wakeup1(s.proc, OtherChan(addr))))
  {
    var s' := s.(proc := Wakeup1(s.proc, OtherChan(addr)));
    CpusSame(s.proc, s'.proc, s.cpu);
    hide Family, NoLostWakeup, Pids, Exits, Cpus;
    InvLight(s, s');
  }

  lemma {:induction false} InvKill(s: Sys, pid: int)
    requires Inv(s)
    ensures Inv(StepKill(s, pid).value)
  {
    var s' := StepKill(s, pid).value;
    CpusSame(s.proc, s'.proc, s.cpu);
    hide Family, NoLostWakeup, Pids, Exits, Cpus;
    InvLight(s, s');
  }

  // ---------------------------------------------------------------- wait

  lemma {:induction false} InvReap(s: Sys, z: nat, s': Sys)
    requires Inv(s) && z < |s.proc| && s.proc[z].state.ZOMBIE?
    requires s' == s.(proc := s.proc[z := Reaped(s.proc[z])], reaped := s.reaped + [s.proc[z].pid])
    ensures Inv(s')
  {
    var t, r := s.proc, s'.proc;
    assert Family(r, s.init) by { FamilyReap(t, s.init, z); }
    assert NoLostWakeup(r) && Pids(r, s.nextpid);
    assert Cpus(r, s.cpu) by { CpusSame(t, r, s.cpu); }
    assert Exits(r, s.nextpid, s.exited, s'.reaped) by { ExitsReap(t, z, s.nextpid, s.exited, s.reaped); }
  }

  lemma {:induction false} FamilyReap(t: Table, init: nat, z: nat)
    requires Family(t, init) && z < |t| && t[z].state.ZOMBIE?
    ensures Family(t[z := Reaped(t[z])], init)
  {
    var r := t[z := Reaped(t[z])];
    assert FamilyOk(t, init, z);
    forall i | 0 <= i < |r|
      ensures FamilyOk(r, init, i)
    {
      assert FamilyOk(t, init, i);
    }
  }

  lemma {:induction false} ExitsReap(t: Table, z: nat, nextpid: int, exited: set<int>, reaped: seq<int>)
    requires Exits(t, nextpid, exited, reaped) && Pids(t, nextpid) && z < |t| && t[z].state.ZOMBIE?
    ensures Exits(t[z := Reaped(t[z])], nextpid, exited, reaped + [t[z].pid])
  {
    var r, q := t[z := Reaped(t[z])], reaped + [t[z].pid];
    forall pid | pid in exited
      ensures pid in q || ZombiePid(r, pid)
    {
      if pid !in reaped && pid != t[z].pid {
        assert ZombiePid(t, pid);
        var i :| 0 <= i < |t| && t[i].state.ZOMBIE? && t[i].pid == pid;
        assert r[i] == t[i];
      } else if pid == t[z].pid {
        assert q[|reaped|] == pid;
      }
    }
  }

  lemma {:induction false} InvWait(s: Sys, c: nat)
    requires Inv(s) && StepWait(s, c).Some?
    ensures Inv(StepWait(s, c).value)
  {
    var cur := Cur(s, c);
    var s' := StepWait(s, c).value;
    var z := FirstZombie(s.proc, cur, 0);
    if z.Some? {
      InvReap(s, z.value, s');
    } else if HasKids(s.proc, cur) && !s.proc[cur].killed {
      CpusRelease(s.proc, s'.proc, s.cpu, c, cur);
      hide Family, NoLostWakeup, Pids, Exits, Cpus;
      InvLight(s, s');
    }
  }

  // ---------------------------------------------------------------- fork

  /** fork() touches no sleeper and no zombie. */
  lemma {:induction false} WakeupSame(t: Table, r: Table)
    requires NoLostWakeup(t) && |r| == |t|
    requires forall i :: 0 <= i < |t| ==> (SleepsOn(r[i], ProcChan(i)) ==> SleepsOn(t[i], ProcChan(i)))
                                          && (r[i].state.ZOMBIE? ==> t[i].state.ZOMBIE? && r[i].parent == t[i].parent)
    ensures NoLostWakeup(r)
  {
  }

  lemma {:induction false} RunningCur(s: Sys, c: nat)
    requires Inv(s) && Running(s, c)
    ensures s.proc[Cur(s, c)].state.RUNNING? && FamilyOk(s.proc, s.init, Cur(s, c))
  {
  }

  lemma {:induction false} InvForkAlloc(s: Sys, c: nat)
    requires Inv(s) && StepForkAlloc(s, c).Some?
    ensures Inv(StepForkAlloc(s, c).value)
  {
    RunningCur(s, c);
    hide Family, NoLostWakeup, Pids, Cpus, Exits, FamilyOk;
    var cur, e := Cur(s, c), FirstUnused(s.proc, 0);
    if e.Some? {
      var t, r := s.proc, AllocTable(s.proc, cur, e.value, s.nextpid);
      assert StepForkAlloc(s, c).value == s.(proc := r, nextpid := s.nextpid + 1);
      hide AllocTable, StepForkAlloc;
      AllocCalm(t, cur, e.value, s.nextpid, s.cpu);
      PidsAlloc(t, cur, e.value, s.nextpid);
      FamilyAlloc(t, s.init, cur, e.value, s.nextpid);
      ExitsAlloc(t, cur, e.value, s.nextpid, s.exited, s.reaped);
    }
  }

  lemma {:induction false} AllocCalm(t: Table, cur: nat, e: nat, pid: int, cpu: seq<Option<nat>>)
    requires NoLostWakeup(t) && Cpus(t, cpu) && cur < |t| && e < |t| && t[e].state.UNUSED? && t[cur].state.RUNNING?
    ensures NoLostWakeup(AllocTable(t, cur, e, pid)) && Cpus(AllocTable(t, cur, e, pid), cpu)
  {
    hide NoLostWakeup, Cpus;
    WakeupSame(t, AllocTable(t, cur, e, pid));
    CpusSame(t, AllocTable(t, cur, e, pid), cpu);
  }

  lemma {:induction false} PidsAlloc(t: Table, cur: nat, e: nat, nextpid: int)
    requires Pids(t, nextpid) && cur < |t| && e < |t| && t[e].state.UNUSED? && t[cur].state.RUNNING?
    ensures Pids(AllocTable(t, cur, e, nextpid), nextpid + 1)
  {
  }

  function AllocTable(t: Table, cur: nat, e: nat, pid: int): (r: Table)
    requires cur < |t| && e < |t|
  {
    var u := t[e := t[e].(state := EMBRYO, pid := pid)];
    u[cur := u[cur].(embryo := Some(e))]
  }

  lemma {:induction false} FamilyAlloc(t: Table, init: nat, cur: nat, e: nat, pid: int)
    requires Family(t, init) && cur < |t| && e < |t| && t[e].state.UNUSED? && t[cur].state.RUNNING? && t[cur].embryo.None?
    ensures Family(AllocTable(t, cur, e, pid), init)
  {
    var r := AllocTable(t, cur, e, pid);
    assert FamilyOk(t, init, e);
    forall i | 0 <= i < |r|
      ensures FamilyOk(r, init, i)
    {
      assert FamilyOk(t, init, i);
    }
    forall i, j | 0 <= i < j < |r| && r[i].embryo.Some?
      ensures r[i].embryo != r[j].embryo
    {
      assert FamilyOk(t, init, i) && FamilyOk(t, init, j);
    }
  }

  lemma {:induction false} ExitsAlloc(t: Table, cur: nat, e: nat, nextpid: int, exited: set<int>, reaped: seq<int>)
    requires Exits(t, nextpid, exited, reaped) && cur < |t| && e < |t| && t[e].state.UNUSED? && t[cur].state.RUNNING?
    ensures Exits(AllocTable(t, cur, e, nextpid), nextpid + 1, exited, reaped)
  {
    var r := AllocTable(t, cur, e, nextpid);
    forall pid | pid in exited
      ensures pid in reaped || ZombiePid(r, pid)
    {
      if pid !in reaped {
        assert ZombiePid(t, pid);
        var i :| 0 <= i < |t| && t[i].state.ZOMBIE? && t[i].pid == pid;
        assert r[i] == t[i];
      }
    }
  }

  /** fork() ends with its child in state `st` and the parent no longer forking. */
  function ForkEnd(t: Table, cur: nat, e: nat, st: PState): (r: Table)
    requires cur < |t| && e < |t|
  {
    var u := t[e := t[e].(state := st)];
    u[cur := u[cur].(embryo := None)]
  }

  lemma {:induction false} FamilyForkEnd(t: Table, init: nat, cur: nat, e: nat, st: PState)
    requires Family(t, init) && cur < |t| && e < |t| && t[cur].embryo == Some(e) && t[cur].state.RUNNING?
    requires (st.UNUSED? && t[e].parent.None?) || (st.RUNNABLE? && t[e].parent.Some?)
    ensures Family(ForkEnd(t, cur, e, st), init)
  {
    var r := ForkEnd(t, cur, e, st);
    assert FamilyOk(t, init, cur) && FamilyOk(t, init, e);
    forall i | 0 <= i < |r|
      ensures FamilyOk(r, init, i)
    {
      assert FamilyOk(t, init, i);
    }
  }

  lemma {:induction false} ExitsForkEnd(t: Table, cur: nat, e: nat, st: PState, nextpid: int, exited: set<int>, reaped: seq<int>)
    requires Exits(t, nextpid, exited, reaped) && cur < |t| && e < |t| && t[e].state.EMBRYO? && t[cur].state.RUNNING?
    requires st.UNUSED? || st.RUNNABLE?
    ensures Exits(ForkEnd(t, cur, e, st), nextpid, exited, reaped)
  {
    var r := ForkEnd(t, cur, e, st);
    forall pid | pid in exited
      ensures pid in reaped || ZombiePid(r, pid)
    {
      if pid !in reaped {
        assert ZombiePid(t, pid);
        var i :| 0 <= i < |t| && t[i].state.ZOMBIE? && t[i].pid == pid;
        assert r[i] == t[i];
      }
    }
  }

  lemma {:induction false} PidsForkEnd(t: Table, cur: nat, e: nat, st: PState, nextpid: int)
    requires Pids(t, nextpid) && cur < |t| && e < |t| && t[e].state.EMBRYO? && t[cur].state.RUNNING?
    ensures Pids(ForkEnd(t, cur, e, st), nextpid)
  {
  }

  lemma {:induction false} ForkingCur(s: Sys, c: nat)
    requires Inv(s) && Forking(s, c)
    ensures s.proc[Cur(s, c)].state.RUNNING? && s.proc[Child(s, c)].state.EMBRYO?
  {
    assert FamilyOk(s.proc, s.init, Cur(s, c));
  }

  lemma {:induction false} InvForkEnd(s: Sys, c: nat, st: PState)
    requires Inv(s) && Forking(s, c)
    requires (st.UNUSED? && s.proc[Child(s, c)].parent.None?) || (st.RUNNABLE? && s.proc[Child(s, c)].parent.Some?)
    ensures Inv(s.(proc := ForkEnd(s.proc, Cur(s, c), Child(s, c), st)))
  {
    ForkingCur(s, c);
    hide Family, NoLostWakeup, Pids, Cpus, Exits;
    var cur, e := Cur(s, c), Child(s, c);
    var t, r := s.proc, ForkEnd(s.proc, cur, e, st);
    WakeupSame(t, r);
    PidsForkEnd(t, cur, e, st, s.nextpid);
    CpusSame(t, r, s.cpu);
    FamilyForkEnd(t, s.init, cur, e, st);
    ExitsForkEnd(t, cur, e, st, s.nextpid, s.exited, s.reaped);
  }

  lemma {:induction false} FamilyForkParent(t: Table, init: nat, cur: nat, e: nat)
    requires Family(t, init) && cur < |t| && e < |t| && t[cur].embryo == Some(e) && t[cur].state.RUNNING?
    ensures Family(t[e := t[e].(parent := Some(cur))], init)
  {
    var r := t[e := t[e].(parent := Some(cur))];
    assert FamilyOk(t, init, cur) && FamilyOk(t, init, e);
    forall i | 0 <= i < |r|
      ensures FamilyOk(r, init, i)
    {
      assert FamilyOk(t, init, i);
    }
  }

  lemma {:induction false} ExitsForkParent(t: Table, cur: nat, e: nat, nextpid: int, exited: set<int>, reaped: seq<int>)
    requires Exits(t, nextpid, exited, reaped) && cur < |t| && e < |t| && t[e].state.EMBRYO?
    ensures Exits(t[e := t[e].(parent := Some(cur))], nextpid, exited, reaped)
  {
    var r := t[e := t[e].(parent := Some(cur))];
    forall pid | pid in exited
      ensures pid in reaped || ZombiePid(r, pid)
    {
      if pid !in reaped {
        assert ZombiePid(t, pid);
        var i :| 0 <= i < |t| && t[i].state.ZOMBIE? && t[i].pid == pid;
        assert r[i] == t[i];
      }
    }
  }

  lemma {:induction false} InvForkParent(s: Sys, c: nat)
    requires Inv(s) && StepForkParent(s, c).Some?
    ensures Inv(StepForkParent(s, c).value)
  {
    ForkingCur(s, c);
    hide Family, NoLostWakeup, Cpus, Exits;
    var cur, e := Cur(s, c), Child(s, c);
    var t, r := s.proc, StepForkParent(s, c).value.proc;
    WakeupSame(t, r);
    CpusSame(t, r, s.cpu);
    FamilyForkParent(t, s.init, cur, e);
    ExitsForkParent(t, cur, e, s.nextpid, s.exited, s.reaped);
  }

  // ---------------------------------------------------------------- main results

  lemma {:induction false} InvStep(s: Sys, e: Event)
    requires Inv(s) && Step(s, e).Some?
    ensures Inv(Step(s, e).value)
  {
    hide Inv, StepForkAlloc, StepForkParent, StepExit, StepWait, StepSleep, StepYield, StepSchedule, StepKill;
    match e
    case ForkAlloc(c) => InvForkAlloc(s, c);
    case ForkFail(c) => InvForkEnd(s, c, UNUSED);
    case ForkParent(c) => InvForkParent(s, c);
    case ForkDone(c) => InvForkEnd(s, c, RUNNABLE);
    case Exit(c) => InvExit(s, c);
    case Wait(c) => InvWait(s, c);
    case Sleep(c, addr) => InvSleep(s, c, addr);
    case Yield(c) => InvYield(s, c);
    case Schedule(c, i) => InvSchedule(s, c, i);
    case Wakeup(addr) => InvWakeup(s, addr);
    case Kill(pid) => InvKill(s, pid);
  }

  /** In every interleaving: no lost wakeup in wait(), living parents, distinct pids, one CPU per
      running process, and every exit reaped at most once. */
  lemma {:induction false} RunInv(s: Sys, es: seq<Event>)
    requires Init(s) && Run(s, es).Some?
    ensures Inv(Run(s, es).value)
  {
    hide Inv, Step, Init;
    if es == [] {
      InvInit(s);
    } else {
      RunInv(s, es[..|es| - 1]);
      InvStep(Run(s, es[..|es| - 1]).value, es[|es| - 1]);
    }
  }

  /** Whenever a process with a zombie child waits, it gets the pid of a child that has exited and has
      not been waited for before; with the invariant, every exit is reported exactly once. */
  lemma {:induction false} WaitReports(s: Sys, es: seq<Event>, c: nat, j: nat)
    requires Init(s) && Run(s, es).Some?
    requires var t := Run(s, es).value;
             && Running(t, c) && t.proc[Cur(t, c)].embryo.None?
             && j < |t.proc| && t.proc[j].state.ZOMBIE? && t.proc[j].parent == Some(Cur(t, c))
    ensures var t := Run(s, es).value;
            var u := StepWait(t, c);
            && u.Some? && |u.value.reaped| == |t.reaped| + 1
            && var pid := u.value.reaped[|t.reaped|];
            && pid in t.exited && pid !in t.reaped
            && exists i :: 0 <= i < |t.proc| && t.proc[i].parent == Some(Cur(t, c)) && t.proc[i].state.ZOMBIE? && t.proc[i].pid == pid
  {
    RunInv(s, es);
    hide Run;
    var t := Run(s, es).value;
    var z := FirstZombie(t.proc, Cur(t, c), 0);
    var u := StepWait(t, c).value;
    assert u.reaped == t.reaped + [t.proc[z.value].pid];
  }
}
