/** The life of one process slot: for every step of the system of ProcRuns, exactly what it does to each
    field of each slot, told from the side of the slot. */
module ProcLife {
  import opened Options
  import opened ProcTable
  import opened ProcRuns

  /** CPU `c` runs process `i`. */
  predicate On(s: Sys, c: nat, i: nat) {
    c < |s.cpu| && s.cpu[c] == Some(i)
  }

  predicate Zombie(t: Table, parent: nat, i: nat) {
    i < |t| && t[i].parent == Some(parent) && t[i].state == ZOMBIE
  }

  /** Process `i` has children and none of them has exited, and nobody wants to kill it. */
  predicate MustWait(t: Table, i: nat) {
    && i < |t| && !t[i].killed
    && (exists j :: 0 <= j < |t| && t[j].parent == Some(i))
    && forall j: nat :: j < |t| ==> !Zombie(t, i, j)
  }

  /** allocproc() takes slot `i`: the caller is not forking already, and no slot before is unused. */
  predicate Taken(s: Sys, e: Event, i: nat) {
    && e.ForkAlloc? && Running(s, e.c) && s.proc[Cur(s, e.c)].embryo.None?
    && i < |s.proc| && s.proc[i].state == UNUSED && forall j :: 0 <= j < i ==> s.proc[j].state != UNUSED
  }

  /** A fork() by some running process ends well, or in vain, with `i` its child. */
  predicate Born(s: Sys, e: Event, i: nat) {
    e.ForkDone? && Running(s, e.c) && s.proc[Cur(s, e.c)].embryo == Some(i)
  }

  predicate GivenUp(s: Sys, e: Event, i: nat) {
    e.ForkFail? && Running(s, e.c) && s.proc[Cur(s, e.c)].embryo == Some(i)
  }

  /** wait() by the parent of `i` comes upon `i` first. */
  predicate Collected(s: Sys, e: Event, i: nat) {
    && e.Wait? && Running(s, e.c) && Zombie(s.proc, Cur(s, e.c), i)
    && forall j: nat :: j < i ==> !Zombie(s.proc, Cur(s, e.c), j)
  }

  /** kill() comes upon slot `i` first. */
  predicate Hit(s: Sys, e: Event, i: nat) {
    e.Kill? && i < |s.proc| && s.proc[i].pid == e.pid && forall j :: 0 <= j < i ==> s.proc[j].pid != e.pid
  }

  /** Some process that has a zombie child exits. */
  predicate LeavesZombie(s: Sys, e: Event) {
    e.Exit? && Running(s, e.c) && exists j: nat :: j < |s.proc| && Zombie(s.proc, Cur(s, e.c), j)
  }

  /** What ends the sleep of process `i` on channel `ch`: wakeup() of the channel, a kill, and for the sleep in
      wait() the exit of a child, or, if the sleeper is init, an exit that hands it a zombie. */
  predicate Roused(s: Sys, e: Event, i: nat, ch: Chan) {
    || (e.Wakeup? && ch == OtherChan(e.addr))
    || Hit(s, e, i)
    || (e.Exit? && Running(s, e.c) && ch == ChanOf(s.proc[Cur(s, e.c)].parent))
    || (LeavesZombie(s, e) && ch == ProcChan(s.init))
  }

  /** The state diagram of a slot. */
  function NextState(s: Sys, e: Event, i: nat): (r: PState)
    requires i < |s.proc|
  {
    match s.proc[i].state
    case UNUSED => if Taken(s, e, i) then EMBRYO else UNUSED
    case EMBRYO => if Born(s, e, i) then RUNNABLE else if GivenUp(s, e, i) then UNUSED else EMBRYO
    case SLEEPING => if Roused(s, e, i, s.proc[i].chan) then RUNNABLE else SLEEPING
    case RUNNABLE => if e.Schedule? && e.i == i then RUNNING else RUNNABLE
    case RUNNING =>
      if e.Yield? && On(s, e.c, i) then RUNNABLE
      else if e.Sleep? && On(s, e.c, i) then SLEEPING
      else if e.Wait? && On(s, e.c, i) && MustWait(s.proc, i) then SLEEPING
      else if e.Exit? && On(s, e.c, i) then ZOMBIE
      else RUNNING
    case ZOMBIE => if Collected(s, e, i) then UNUSED else ZOMBIE
  }

  function NextPid(s: Sys, e: Event, i: nat): (r: int)
    requires i < |s.proc|
  {
    if Taken(s, e, i) then s.nextpid else if Collected(s, e, i) then 0 else s.proc[i].pid
  }

  function NextParent(s: Sys, e: Event, i: nat): (r: Option<nat>)
    requires i < |s.proc|
  {
    if e.ForkParent? && Running(s, e.c) && s.proc[Cur(s, e.c)].embryo == Some(i) then Some(Cur(s, e.c))
    else if e.Exit? && Running(s, e.c) && s.proc[i].parent == Some(Cur(s, e.c)) then Some(s.init)
    else if Collected(s, e, i) then None
    else s.proc[i].parent
  }

  /** The kill flag: nothing but wait() takes it back, not even a new process in the slot. */
  function NextKilled(s: Sys, e: Event, i: nat): (r: bool)
    requires i < |s.proc|
  {
    if Hit(s, e, i) then true else if Collected(s, e, i) then false else s.proc[i].killed
  }

  function NextChan(s: Sys, e: Event, i: nat): (r: Chan)
    requires i < |s.proc|
  {
    if e.Sleep? && On(s, e.c, i) then OtherChan(e.addr)
    else if e.Wait? && On(s, e.c, i) && MustWait(s.proc, i) then ProcChan(i)
    else if e.Schedule? && e.i == i then NoChan
    else s.proc[i].chan
  }

  /** Whom CPU `c` runs: the scheduler gives it a process, and takes it back when that gives up or must wait. */
  function NextCpu(s: Sys, e: Event, c: nat): (r: Option<nat>)
    requires c < |s.cpu|
  {
    if e.Schedule? && e.c == c then Some(e.i)
    else if (e.Yield? || e.Sleep? || e.Exit?) && e.c == c then None
    else if e.Wait? && e.c == c && Running(s, c) && MustWait(s.proc, Cur(s, c)) then None
    else s.cpu[c]
  }

  ghost predicate CpusFollow(s: Sys, e: Event, t: Sys) {
    |t.cpu| == |s.cpu| && forall c :: 0 <= c < |s.cpu| ==> t.cpu[c] == NextCpu(s, e, c)
  }

  ghost predicate SlotFollows(s: Sys, e: Event, p: Proc, i: nat)
    requires i < |s.proc|
  {
    && p.state == NextState(s, e, i) && p.pid == NextPid(s, e, i) && p.parent == NextParent(s, e, i)
    && p.killed == NextKilled(s, e, i) && p.chan == NextChan(s, e, i)
  }

  ghost predicate Follows(s: Sys, e: Event, t: Sys) {
    |t.proc| == |s.proc| && forall i :: 0 <= i < |s.proc| ==> SlotFollows(s, e, t.proc[i], i)
  }

  // ---------------------------------------------------------------- each step

  /** Who runs, and whose child an embryo is. */
  lemma {:induction false} Placed(s: Sys, c: nat, i: nat)
    requires Inv(s) && Running(s, c) && i < |s.proc|
    ensures s.proc[Cur(s, c)].state == RUNNING && (On(s, c, i) <==> i == Cur(s, c))
    ensures s.proc[Cur(s, c)].parent != Some(Cur(s, c))
    ensures s.proc[Cur(s, c)].embryo == Some(i) ==> s.proc[i].state == EMBRYO
  {
    assert FamilyOk(s.proc, s.init, Cur(s, c));
  }

  lemma {:induction false} FollowsForkAlloc(s: Sys, c: nat, i: nat)
    requires Inv(s) && StepForkAlloc(s, c).Some? && i < |s.proc|
    ensures |StepForkAlloc(s, c).value.proc| == |s.proc| && SlotFollows(s, ForkAlloc(c), StepForkAlloc(s, c).value.proc[i], i)
  {
    hide Inv;
    Placed(s, c, i);
    hide FirstUnused;
  }

  lemma {:induction false} FollowsForkParent(s: Sys, c: nat, i: nat)
    requires Inv(s) && StepForkParent(s, c).Some? && i < |s.proc|
    ensures |StepForkParent(s, c).value.proc| == |s.proc| && SlotFollows(s, ForkParent(c), StepForkParent(s, c).value.proc[i], i)
  {
    hide Inv;
  }

  lemma {:induction false} FollowsForkEnd(s: Sys, e: Event, i: nat)
    requires Inv(s) && Step(s, e).Some? && i < |s.proc| && (e.ForkFail? || e.ForkDone?)
    ensures |Step(s, e).value.proc| == |s.proc| && SlotFollows(s, e, Step(s, e).value.proc[i], i)
  {
    hide Inv;
    Placed(s, e.c, i);
    Placed(s, e.c, Child(s, e.c));
  }

  lemma {:induction false} FollowsExit(s: Sys, c: nat, i: nat)
    requires Inv(s) && StepExit(s, c).Some? && i < |s.proc|
    ensures |StepExit(s, c).value.proc| == |s.proc| && SlotFollows(s, Exit(c), StepExit(s, c).value.proc[i], i)
  {
    hide Inv, HasZombie, LeavesZombie;
    Placed(s, c, i);
    ZombieLeft(s, c);
    assert StepExit(s, c).value.proc[i] == ExitSlot(s.proc, Cur(s, c), s.init, i);
    hide ExitTable, StepExit;
  }

  lemma {:induction false} ZombieLeft(s: Sys, c: nat)
    requires Running(s, c)
    ensures HasZombie(s.proc, Cur(s, c)) <==> LeavesZombie(s, Exit(c))
  {
    var cur := Cur(s, c);
    if HasZombie(s.proc, cur) {
      var j :| 0 <= j < |s.proc| && s.proc[j].parent == Some(cur) && s.proc[j].state.ZOMBIE?;
      assert Zombie(s.proc, cur, j);
    }
  }

  /** wait() finds a zombie, or it finds none and there is reason to sleep or not. */
  lemma {:induction false} WaitFinds(s: Sys, c: nat, i: nat)
    requires Running(s, c) && i < |s.proc|
    ensures var z := FirstZombie(s.proc, Cur(s, c), 0);
            && (Collected(s, Wait(c), i) <==> z == Some(i))
            && (MustWait(s.proc, Cur(s, c)) <==> z.None? && HasKids(s.proc, Cur(s, c)) && !s.proc[Cur(s, c)].killed)
            && (z.Some? ==> s.proc[z.value].state == ZOMBIE)
  {
    var cur := Cur(s, c);
    var z := FirstZombie(s.proc, cur, 0);
    hide FirstZombie;
    if z.Some? {
      assert Zombie(s.proc, cur, z.value);
      assert i < z.value ==> !Zombie(s.proc, cur, i);
    } else {
      assert forall j: nat :: !Zombie(s.proc, cur, j);
    }
  }

  lemma {:induction false} FollowsWait(s: Sys, c: nat, i: nat)
    requires Inv(s) && StepWait(s, c).Some? && i < |s.proc|
    ensures |StepWait(s, c).value.proc| == |s.proc| && SlotFollows(s, Wait(c), StepWait(s, c).value.proc[i], i)
  {
    hide Inv, FirstZombie, Collected, MustWait, HasKids;
    Placed(s, c, i);
    WaitFinds(s, c, i);
  }

  lemma {:induction false} FollowsSwitch(s: Sys, e: Event, i: nat)
    requires Inv(s) && Step(s, e).Some? && i < |s.proc| && (e.Sleep? || e.Yield? || e.Schedule?)
    ensures |Step(s, e).value.proc| == |s.proc| && SlotFollows(s, e, Step(s, e).value.proc[i], i)
  {
    hide Inv;
    if !e.Schedule? {
      Placed(s, e.c, i);
    }
  }

  lemma {:induction false} FollowsWakeup(s: Sys, addr: nat, i: nat)
    requires i < |s.proc|
    ensures SlotFollows(s, Wakeup(addr), Wakeup1(s.proc, OtherChan(addr))[i], i)
  {
  }

  lemma {:induction false} FollowsKill(s: Sys, pid: int, i: nat)
    requires i < |s.proc|
    ensures |StepKill(s, pid).value.proc| == |s.proc| && SlotFollows(s, Kill(pid), StepKill(s, pid).value.proc[i], i)
  {
    hide FirstPid;
    var k := FirstPid(s.proc, pid, 0);
    assert Hit(s, Kill(pid), i) <==> k == Some(i);
  }

  /** Every step of the system, whatever it is, does to every slot exactly what the diagram says. */
  lemma {:induction false} StepFollows(s: Sys, e: Event)
    requires Inv(s) && Step(s, e).Some?
    ensures Follows(s, e, Step(s, e).value)
  {
    hide Inv, SlotFollows;
    var t := Step(s, e).value;
    assert |t.proc| == |s.proc| by { hide SlotFollows; StepLength(s, e); }
    hide Step;
    forall i | 0 <= i < |s.proc|
      ensures SlotFollows(s, e, t.proc[i], i)
    {
      StepFollowsAt(s, e, i);
    }
  }

  lemma {:induction false} StepLength(s: Sys, e: Event)
    requires Step(s, e).Some?
    ensures |Step(s, e).value.proc| == |s.proc|
  {
  }

  lemma {:induction false} StepFollowsAt(s: Sys, e: Event, i: nat)
    requires Inv(s) && Step(s, e).Some? && i < |s.proc|
    ensures |Step(s, e).value.proc| == |s.proc| && SlotFollows(s, e, Step(s, e).value.proc[i], i)
  {
    hide Inv, SlotFollows, StepExit, StepWait, StepForkAlloc, StepForkParent, StepKill;
    match e {
      case ForkAlloc(c) => FollowsForkAlloc(s, c, i);
      case ForkFail(_) => FollowsForkEnd(s, e, i);
      case ForkParent(c) => FollowsForkParent(s, c, i);
      case ForkDone(_) => FollowsForkEnd(s, e, i);
      case Exit(c) => FollowsExit(s, c, i);
      case Wait(c) => FollowsWait(s, c, i);
      case Wakeup(addr) => FollowsWakeup(s, addr, i);
      case Kill(pid) => FollowsKill(s, pid, i);
      case _ => FollowsSwitch(s, e, i);
    }
  }

  // ---------------------------------------------------------------- when steps can happen, and what they record

  /** The running processes can do as they like, within what they are in the middle of; init does not exit. */
  predicate CanHappen(s: Sys, e: Event) {
    match e
    case ForkAlloc(c) => Running(s, c) && s.proc[Cur(s, c)].embryo.None?
    case ForkFail(c) => Running(s, c) && exists j: nat :: j < |s.proc| && s.proc[Cur(s, c)].embryo == Some(j) && s.proc[j].parent.None?
    case ForkParent(c) => Running(s, c) && s.proc[Cur(s, c)].embryo.Some?
    case ForkDone(c) => Running(s, c) && exists j: nat :: j < |s.proc| && s.proc[Cur(s, c)].embryo == Some(j) && s.proc[j].parent == Some(Cur(s, c))
    case Exit(c) => Running(s, c) && s.proc[Cur(s, c)].embryo.None? && !On(s, c, s.init)
    case Wait(c) => Running(s, c) && s.proc[Cur(s, c)].embryo.None?
    case Sleep(c, _) => Running(s, c)
    case Yield(c) => Running(s, c)
    case Schedule(c, i) => c < |s.cpu| && s.cpu[c] == None && i < |s.proc| && s.proc[i].state == RUNNABLE
    case Wakeup(_) => true
    case Kill(_) => true
  }

  /** exit() is recorded with the pid of the process that runs on the CPU, wait() with that of the zombie found. */
  ghost predicate Recorded(s: Sys, e: Event, t: Sys) {
    && (e.Exit? && Running(s, e.c) ==> t.exited == s.exited + {s.proc[Cur(s, e.c)].pid})
    && (!e.Exit? ==> t.exited == s.exited)
    && (t.reaped == s.reaped || exists z: nat :: z < |s.proc| && Collected(s, e, z) && t.reaped == s.reaped + [s.proc[z].pid])
    && ((exists z: nat :: z < |s.proc| && Collected(s, e, z)) ==> t.reaped != s.reaped)
    && t.nextpid == (if exists i: nat :: i < |s.proc| && Taken(s, e, i) then s.nextpid + 1 else s.nextpid)
    && t.init == s.init
    && CpusFollow(s, e, t)
  }

  lemma {:induction false} StepEnabled(s: Sys, e: Event)
    requires Inv(s)
    ensures Step(s, e).Some? <==> CanHappen(s, e)
  {
    hide Inv;
    if (e.ForkFail? || e.ForkParent? || e.ForkDone?) && Running(s, e.c) && s.proc[Cur(s, e.c)].embryo.Some? {
      ChildOf(s, e.c);
    }
  }

  lemma {:induction false} ChildOf(s: Sys, c: nat)
    requires Inv(s) && Running(s, c) && s.proc[Cur(s, c)].embryo.Some?
    ensures Forking(s, c) && (s.proc[Child(s, c)].parent.None? || s.proc[Child(s, c)].parent == Some(Cur(s, c)))
  {
    assert FamilyOk(s.proc, s.init, Cur(s, c));
  }

  lemma {:induction false} StepRecorded(s: Sys, e: Event)
    requires Inv(s) && Step(s, e).Some?
    ensures Recorded(s, e, Step(s, e).value)
  {
    hide Inv, FirstZombie, Collected, ExitTable, FirstUnused, FirstPid, MustWait, HasKids, CpusFollow;
    StepCpus(s, e);
    if e.ForkAlloc? && FirstUnused(s.proc, 0).Some? {
      assert Taken(s, e, FirstUnused(s.proc, 0).value);
    }
    if e.Wait? {
      var z := FirstZombie(s.proc, Cur(s, e.c), 0);
      if z.Some? {
        WaitFinds(s, e.c, z.value);
        assert |StepWait(s, e.c).value.reaped| == |s.reaped| + 1;
      } else {
        forall i: nat | i < |s.proc|
          ensures !Collected(s, e, i)
        {
          WaitFinds(s, e.c, i);
        }
      }
    } else {
      assert forall z: nat :: !Collected(s, e, z) by { NotCollected(s, e); }
    }
  }

  lemma {:induction false} StepCpus(s: Sys, e: Event)
    requires Step(s, e).Some?
    ensures CpusFollow(s, e, Step(s, e).value)
  {
    hide FirstZombie, ExitTable, FirstUnused, FirstPid, MustWait, HasKids;
    if e.Wait? {
      WaitFinds(s, e.c, Cur(s, e.c));
    }
  }

  lemma {:induction false} NotCollected(s: Sys, e: Event)
    requires !e.Wait?
    ensures forall z: nat :: !Collected(s, e, z)
  {
  }

  /** In every run: each step can happen exactly if the processes on the CPUs are in a place to make it, and then
      does to every slot, and records, exactly what the diagram says. */
  lemma {:induction false} RunFollows(s: Sys, es: seq<Event>, e: Event)
    requires Init(s) && Run(s, es).Some?
    ensures var t := Run(s, es).value;
            && (Step(t, e).Some? <==> CanHappen(t, e))
            && (Step(t, e).Some? ==> Follows(t, e, Step(t, e).value) && Recorded(t, e, Step(t, e).value))
  {
    hide Init, Run, Step, Inv, Follows, Recorded, CanHappen;
    RunInv(s, es);
    StepEnabled(Run(s, es).value, e);
    if Step(Run(s, es).value, e).Some? {
      StepFollows(Run(s, es).value, e);
      StepRecorded(Run(s, es).value, e);
    }
  }

  // ---------------------------------------------------------------- sleeping and waking

  /** Run, but from any state. */
  lemma {:induction false} RunInvFrom(s: Sys, es: seq<Event>)
    requires Inv(s) && Run(s, es).Some?
    ensures Inv(Run(s, es).value)
  {
    hide Inv, Step;
    if es != [] {
      RunInvFrom(s, es[..|es| - 1]);
      InvStep(Run(s, es[..|es| - 1]).value, es[|es| - 1]);
    }
  }

  /** Some step of the run rouses process `i` from channel `ch`. */
  ghost predicate RousedIn(s: Sys, es: seq<Event>, i: nat, ch: Chan) {
    es != [] &&
    var front := es[..|es| - 1];
    RousedIn(s, front, i, ch) || (Run(s, front).Some? && Roused(Run(s, front).value, es[|es| - 1], i, ch))
  }

  /** A sleeper sleeps on, on its channel, exactly until one of the four things that should wake it happens. */
  lemma {:induction false} SleepsUntilRoused(s: Sys, es: seq<Event>, i: nat, ch: Chan)
    requires Inv(s) && Run(s, es).Some? && i < |s.proc| && SleepsOn(s.proc[i], ch) && !RousedIn(s, es, i, ch)
    ensures i < |Run(s, es).value.proc| && SleepsOn(Run(s, es).value.proc[i], ch)
    ensures forall e :: Step(Run(s, es).value, e).Some? ==>
              var u := Step(Run(s, es).value, e).value;
              i < |u.proc| && (if Roused(Run(s, es).value, e, i, ch) then u.proc[i].state == RUNNABLE else SleepsOn(u.proc[i], ch))
  {
    hide Inv, Step, Follows, Roused, Run;
    RunInvFrom(s, es);
    if es != [] {
      RunSnoc(s, es);
      SleepsUntilRoused(s, es[..|es| - 1], i, ch);
    } else {
      assert Run(s, []) == Some(s) by { hide Step; RunNone(s); }
    }
    var t := Run(s, es).value;
    forall e | Step(t, e).Some?
      ensures i < |Step(t, e).value.proc|
      ensures if Roused(t, e, i, ch) then Step(t, e).value.proc[i].state == RUNNABLE else SleepsOn(Step(t, e).value.proc[i], ch)
    {
      StepFollows(t, e);
      SleeperNext(t, e, Step(t, e).value, i, ch);
    }
  }

  lemma {:induction false} RunNone(s: Sys)
    ensures Run(s, []) == Some(s)
  {
  }

  lemma {:induction false} RunSnoc(s: Sys, es: seq<Event>)
    requires es != [] && Run(s, es).Some?
    ensures var front := Run(s, es[..|es| - 1]); front.Some? && Run(s, es) == Step(front.value, es[|es| - 1])
  {
    hide Step;
  }

  lemma {:induction false} SleeperNext(s: Sys, e: Event, t: Sys, i: nat, ch: Chan)
    requires Inv(s) && Follows(s, e, t) && i < |s.proc| && SleepsOn(s.proc[i], ch) && Step(s, e).Some?
    ensures i < |t.proc|
    ensures if Roused(s, e, i, ch) then t.proc[i].state == RUNNABLE else SleepsOn(t.proc[i], ch)
  {
    hide Inv, Step, Roused;
    assert SlotFollows(s, e, t.proc[i], i);
    if (e.Sleep? || e.Wait?) && On(s, e.c, i) {
      Placed(s, e.c, i);
    }
    if e.Schedule? {
      StepEnabled(s, e);
    }
  }

  /** Whoever sleeps in wait() is made runnable by the exit of any of its children. */
  lemma {:induction false} ExitWakesParent(s: Sys, es: seq<Event>, c: nat, i: nat)
    requires Init(s) && Run(s, es).Some?
    requires var t := Run(s, es).value;
             && i < |t.proc| && SleepsOn(t.proc[i], ProcChan(i)) && Step(t, Exit(c)).Some?
             && Running(t, c) && t.proc[Cur(t, c)].parent == Some(i)
    ensures var u := Step(Run(s, es).value, Exit(c)).value; i < |u.proc| && u.proc[i].state == RUNNABLE
  {
    hide Init, Run, Step, Inv, Follows;
    RunInv(s, es);
    var t := Run(s, es).value;
    StepFollows(t, Exit(c));
    SleeperNext(t, Exit(c), Step(t, Exit(c)).value, i, ProcChan(i));
  }

  // ---------------------------------------------------------------- who gets killed

  /** The pids that kill() has found so far. */
  ghost predicate FlagsRight(s: Sys, asked: set<int>) {
    && (forall i :: 0 <= i < |s.proc| ==> (s.proc[i].killed <==> s.proc[i].state != UNUSED && s.proc[i].pid in asked))
    && (forall pid :: pid in asked ==> pid < s.nextpid)
  }

  ghost function Asked(s: Sys, e: Event, asked: set<int>): (r: set<int>) {
    if e.Kill? && exists i :: 0 <= i < |s.proc| && s.proc[i].pid == e.pid then asked + {e.pid} else asked
  }

  /** kill() finds the pid in a slot that nobody uses, or a fork() fails whose child has been killed. */
  ghost predicate Stray(s: Sys, e: Event) {
    || (exists i: nat :: i < |s.proc| && s.proc[i].state == UNUSED && Hit(s, e, i))
    || (exists i: nat :: i < |s.proc| && s.proc[i].killed && GivenUp(s, e, i))
  }

  lemma {:induction false} StrayKill(s: Sys, e: Event, i: nat)
    requires Inv(s) && i < |s.proc| && s.proc[i].state != UNUSED && e.Kill? && s.proc[i].pid == e.pid
    ensures Hit(s, e, i) && forall j: nat :: Hit(s, e, j) ==> j == i
  {
  }

  lemma {:induction false} FlagsStray(s: Sys, e: Event, t: Sys, asked: set<int>)
    requires Inv(s) && Follows(s, e, t) && Stray(s, e)
    ensures !FlagsRight(t, asked)
  {
    hide Inv;
    if i: nat :| i < |s.proc| && s.proc[i].state == UNUSED && Hit(s, e, i) {
      assert SlotFollows(s, e, t.proc[i], i) && t.proc[i].killed;
    } else {
      var i: nat :| i < |s.proc| && s.proc[i].killed && GivenUp(s, e, i);
      Placed(s, e.c, i);
      assert SlotFollows(s, e, t.proc[i], i) && t.proc[i].killed;
    }
  }

  lemma {:induction false} FlagAt(s: Sys, e: Event, p: Proc, asked: set<int>, i: nat)
    requires Inv(s) && i < |s.proc| && SlotFollows(s, e, p, i) && FlagsRight(s, asked) && !Stray(s, e)
    ensures p.killed <==> p.state != UNUSED && p.pid in Asked(s, e, asked)
  {
    assert 0 <= s.proc[i].pid < s.nextpid;
    if e.Kill? && s.proc[i].state != UNUSED && s.proc[i].pid == e.pid {
      StrayKill(s, e, i);
    }
    hide Inv;
    assert s.proc[i].state == UNUSED ==> !Hit(s, e, i);
    assert s.proc[i].killed ==> !GivenUp(s, e, i);
  }

  /** A step keeps the kill flags right, set for exactly the processes that kill() was called for, if and only if
      it is not a kill() that comes upon an unused slot nor the failure of a fork() whose child has been killed. */
  lemma {:induction false} FlagsStep(s: Sys, e: Event, asked: set<int>)
    requires Inv(s) && Step(s, e).Some? && FlagsRight(s, asked)
    ensures FlagsRight(Step(s, e).value, Asked(s, e, asked)) <==> !Stray(s, e)
  {
    hide Inv, Step, Stray, SlotFollows;
    StepFollows(s, e);
    StepRecorded(s, e);
    var t := Step(s, e).value;
    if Stray(s, e) {
      FlagsStray(s, e, t, Asked(s, e, asked));
    } else {
      forall i | 0 <= i < |t.proc|
        ensures t.proc[i].killed <==> t.proc[i].state != UNUSED && t.proc[i].pid in Asked(s, e, asked)
      {
        FlagAt(s, e, t.proc[i], asked, i);
      }
      AskedKnown(s, e, asked);
    }
  }

  lemma {:induction false} AskedKnown(s: Sys, e: Event, asked: set<int>)
    requires Inv(s) && forall pid :: pid in asked ==> pid < s.nextpid
    ensures forall pid :: pid in Asked(s, e, asked) ==> pid < s.nextpid
  {
  }

  ghost function AskedIn(s: Sys, es: seq<Event>): (r: set<int>) {
    if es == [] then {}
    else
      var front := es[..|es| - 1];
      if Run(s, front).None? then {} else Asked(Run(s, front).value, es[|es| - 1], AskedIn(s, front))
  }

  ghost predicate StrayIn(s: Sys, es: seq<Event>) {
    es != [] &&
    var front := es[..|es| - 1];
    StrayIn(s, front) || (Run(s, front).Some? && Stray(Run(s, front).value, es[|es| - 1]))
  }

  /** In every run without such a step a process in use is flagged exactly if kill() was called for its pid. */
  lemma {:induction false} KilledExactly(s: Sys, es: seq<Event>)
    requires Init(s) && Run(s, es).Some? && !StrayIn(s, es)
    ensures FlagsRight(Run(s, es).value, AskedIn(s, es))
  {
    hide Init, Step, Stray, FlagsRight, Asked, Inv;
    if es == [] {
      FlagsInit(s);
    } else {
      var front := es[..|es| - 1];
      RunInv(s, front);
      KilledExactly(s, front);
      FlagsStep(Run(s, front).value, es[|es| - 1], AskedIn(s, front));
    }
  }

  lemma {:induction false} FlagsInit(s: Sys)
    requires Init(s)
    ensures FlagsRight(s, {})
  {
  }

  /** A machine with room for two processes and one CPU. */
  function Small(): (s: Sys) {
    Sys([Proc(RUNNABLE, 1, None, NoChan, false, None), Proc(UNUSED, 0, None, NoChan, false, None)], [None], 2, 0, {}, [])
  }

  function Unkindly(): (es: seq<Event>) {
    [Kill(0), Schedule(0, 0), ForkAlloc(0), ForkParent(0), ForkDone(0)]
  }

  /** Small() after the first `k` steps of Unkindly(). */
  function Later(k: nat): (s: Sys)
    requires k <= 5
  {
    var init := Proc(if k < 2 then RUNNABLE else RUNNING, 1, None, NoChan, false, if k < 3 || k == 5 then None else Some(1));
    var other := Proc(if k < 3 then UNUSED else if k < 5 then EMBRYO else RUNNABLE, if k < 3 then 0 else 2,
                      if k < 4 then None else Some(0), NoChan, 0 < k, None);
    Sys([init, other], [if k < 2 then None else Some(0)], if k < 3 then 2 else 3, 0, {}, [])
  }

  lemma {:induction false} UnkindlyStep(k: nat)
    requires k < 5
    ensures Step(Later(k), Unkindly()[k]) == Some(Later(k + 1))
  {
    var s, t := Later(k), Later(k + 1);
    assert FirstPid(s.proc, 0, 1) == if s.proc[1].pid == 0 then Some(1) else FirstPid(s.proc, 0, 2);
    assert FirstUnused(s.proc, 1) == if s.proc[1].state == UNUSED then Some(1) else FirstUnused(s.proc, 2);
    assert s.proc[0 := t.proc[0]][1 := t.proc[1]] == t.proc && s.proc[1 := t.proc[1]][0 := t.proc[0]] == t.proc;
    assert s.proc[0 := s.proc[0]] == s.proc && s.proc[1 := s.proc[1]] == s.proc;
    assert s.cpu[0 := t.cpu[0]] == t.cpu;
  }

  /** kill(0) finds an unused slot, whose pid is 0; the next process in that slot is born killed, although kill()
      was never called for it. */
  lemma {:induction false} BornKilled()
    ensures Init(Small()) && StrayIn(Small(), Unkindly())
    ensures var r := Run(Small(), Unkindly());
            r.Some? && |r.value.proc| == 2 && r.value.proc[1] == Proc(RUNNABLE, 2, Some(0), NoChan, true, None)
    ensures 2 !in AskedIn(Small(), Unkindly())
  {
    assert Init(Small());
    UnkindlyRun(5);
    assert Unkindly()[..5] == Unkindly();
    hide Run, StrayIn, AskedIn;
  }

  lemma {:induction false} UnkindlyRun(k: nat)
    requires k <= 5
    ensures Run(Small(), Unkindly()[..k]) == Some(Later(k))
    ensures k > 0 ==> StrayIn(Small(), Unkindly()[..k])
    ensures 2 !in AskedIn(Small(), Unkindly()[..k])
  {
    hide Step, Stray;
    if k > 0 {
      UnkindlyRun(k - 1);
      UnkindlyStep(k - 1);
      var es := Unkindly()[..k];
      assert es[..|es| - 1] == Unkindly()[..k - 1] && es[|es| - 1] == Unkindly()[k - 1];
      if k == 1 {
        FirstIsStray();
      }
    }
  }

  lemma {:induction false} FirstIsStray()
    ensures Stray(Later(0), Kill(0))
  {
    assert Hit(Later(0), Kill(0), 1);
  }
}
