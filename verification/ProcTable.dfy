/** The process table of proc.c: what each region that runs under ptable.lock does to it. */
module ProcTable {
  import opened Options

  datatype PState = UNUSED | EMBRYO | SLEEPING | RUNNABLE | RUNNING | ZOMBIE

  /** What a process sleeps on: nothing, a process slot (wait), or some other kernel address. */
  datatype Chan = NoChan | ProcChan(slot: nat) | OtherChan(addr: nat)

  /** struct proc. `embryo` is the child a fork() in progress has allocated. */
  datatype Proc = Proc(state: PState, pid: int, parent: Option<nat>, chan: Chan, killed: bool, embryo: Option<nat>)

  type Table = seq<Proc>

  function ChanOf(parent: Option<nat>): (c: Chan) {
    if parent.None? then NoChan else ProcChan(parent.value)
  }

  // ---------------------------------------------------------------- wakeup1

  predicate SleepsOn(p: Proc, ch: Chan) {
    p.state.SLEEPING? && p.chan == ch
  }

  function Woken(p: Proc, ch: Chan): (r: Proc) {
    if SleepsOn(p, ch) then p.(state := RUNNABLE) else p
  }

  function Wakeup1(t: Table, ch: Chan): (r: Table)
    ensures |r| == |t| && forall i :: 0 <= i < |t| ==> r[i] == Woken(t[i], ch)
  {
    seq(|t|, i requires 0 <= i < |t| => Woken(t[i], ch))
  }

  // ---------------------------------------------------------------- exit

  /** Some child of `cur` has exited but not been waited for. */
  predicate HasZombie(t: Table, cur: nat) {
    exists i :: 0 <= i < |t| && t[i].parent == Some(cur) && t[i].state.ZOMBIE?
  }

  function Adopted(p: Proc, cur: nat, init: nat): (r: Proc) {
    if p.parent == Some(cur) then p.(parent := Some(init)) else p
  }

  /** exit() by process `cur`: its parent woken, its children handed to init, itself a zombie. */
  function ExitSlot(t: Table, cur: nat, init: nat, i: nat): (r: Proc)
    requires cur < |t| && i < |t|
  {
    var p := Adopted(Woken(t[i], ChanOf(t[cur].parent)), cur, init);
    var q := if HasZombie(t, cur) then Woken(p, ProcChan(init)) else p;
    if i == cur then q.(state := ZOMBIE) else q
  }

  function ExitTable(t: Table, cur: nat, init: nat): (r: Table)
    requires cur < |t|
    ensures |r| == |t| && forall i :: 0 <= i < |t| ==> r[i] == ExitSlot(t, cur, init, i)
  {
    seq(|t|, i requires 0 <= i < |t| => ExitSlot(t, cur, init, i))
  }

  // ---------------------------------------------------------------- wait

  /** The slot of the first zombie child, if any. */
  function FirstZombie(t: Table, cur: nat, from: nat): (r: Option<nat>)
    requires from <= |t|
    ensures r.Some? ==> from <= r.value < |t| && t[r.value].parent == Some(cur) && t[r.value].state.ZOMBIE?
    ensures forall i :: from <= i < (if r.Some? then r.value else |t|) ==> !(t[i].parent == Some(cur) && t[i].state.ZOMBIE?)
    decreases |t| - from
  {
    if from == |t| then None
    else if t[from].parent == Some(cur) && t[from].state.ZOMBIE? then Some(from)
    else FirstZombie(t, cur, from + 1)
  }

  predicate HasKids(t: Table, cur: nat) {
    exists i :: 0 <= i < |t| && t[i].parent == Some(cur)
  }

  /** A reaped slot. */
  function Reaped(p: Proc): (r: Proc) {
    p.(state := UNUSED, pid := 0, parent := None, killed := false)
  }

  datatype WaitResult = Pid(pid: int) | NoChild | Slept

  /** One pass of wait() by process `cur`, from taking ptable.lock to giving it up. */
  function WaitTable(t: Table, cur: nat): (r: (WaitResult, Table))
    requires cur < |t|
  {
    var z := FirstZombie(t, cur, 0);
    if z.Some? then (Pid(t[z.value].pid), t[z.value := Reaped(t[z.value])])
    else if !HasKids(t, cur) || t[cur].killed then (NoChild, t)
    else (Slept, t[cur := t[cur].(chan := ProcChan(cur), state := SLEEPING)])
  }

  // ---------------------------------------------------------------- allocproc and kill

  function FirstUnused(t: Table, from: nat): (r: Option<nat>)
    requires from <= |t|
    ensures r.Some? ==> from <= r.value < |t| && t[r.value].state.UNUSED?
    ensures forall i :: from <= i < (if r.Some? then r.value else |t|) ==> !t[i].state.UNUSED?
    decreases |t| - from
  {
    if from == |t| then None else if t[from].state.UNUSED? then Some(from) else FirstUnused(t, from + 1)
  }

  function FirstPid(t: Table, pid: int, from: nat): (r: Option<nat>)
    requires from <= |t|
    ensures r.Some? ==> from <= r.value < |t| && t[r.value].pid == pid
    ensures forall i :: from <= i < (if r.Some? then r.value else |t|) ==> t[i].pid != pid
    decreases |t| - from
  {
    if from == |t| then None else if t[from].pid == pid then Some(from) else FirstPid(t, pid, from + 1)
  }

  function Killed(p: Proc): (r: Proc) {
    p.(killed := true, state := if p.state.SLEEPING? then RUNNABLE else p.state)
  }

  // ---------------------------------------------------------------- code

  class Ptable {
    var proc: Table
    var nextpid: int

    method DoWakeup1(ch: Chan)
      modifies `proc
      ensures |proc| == |old(proc)|
      ensures forall i :: 0 <= i < |proc| ==>
                proc[i] == if old(proc)[i].state == SLEEPING && old(proc)[i].chan == ch then old(proc)[i].(state := RUNNABLE) else old(proc)[i]
      ensures proc == Wakeup1(old(proc), ch)
    {
      var i := 0;
      while i < |proc|
        invariant 0 <= i <= |proc| == |old(proc)|
        invariant forall j :: 0 <= j < |proc| ==> proc[j] == if j < i then Woken(old(proc)[j], ch) else old(proc)[j]
      {
        if proc[i].state.SLEEPING? && proc[i].chan == ch {
          proc := proc[i := proc[i].(state := RUNNABLE)];
        }
        i := i + 1;
      }
    }

    /** The locked part of allocproc(). */
    method Allocproc() returns (r: Option<nat>)
      modifies `proc, `nextpid
      ensures r.None? <==> forall i :: 0 <= i < |old(proc)| ==> old(proc)[i].state != UNUSED
      ensures r.Some? ==> r.value < |old(proc)| && old(proc)[r.value].state == UNUSED
                          && forall i :: 0 <= i < r.value ==> old(proc)[i].state != UNUSED
      ensures r == FirstUnused(old(proc), 0)
      ensures r.None? ==> proc == old(proc) && nextpid == old(nextpid)
      ensures r.Some? ==>
                && proc == old(proc)[r.value := old(proc)[r.value].(state := EMBRYO, pid := old(nextpid))]
                && nextpid == old(nextpid) + 1
    {
      var i := 0;
      while i < |proc| && !proc[i].state.UNUSED?
        invariant 0 <= i <= |proc| && proc == old(proc) && nextpid == old(nextpid)
        invariant FirstUnused(proc, 0) == FirstUnused(proc, i)
      {
        i := i + 1;
      }
      if i == |proc| {
        return None;
      }
      proc := proc[i := proc[i].(state := EMBRYO, pid := nextpid)];
      nextpid := nextpid + 1;
      return Some(i);
    }

    /** The part of exit() under ptable.lock, up to sched(). */
    method Exit(cur: nat, init: nat)
      requires cur < |proc|
      modifies `proc
      ensures |proc| == |old(proc)|
      ensures forall i :: 0 <= i < |proc| ==>
                var p := old(proc)[i];
                && proc[i] == p.(state := proc[i].state, parent := proc[i].parent)
                && proc[i].parent == (if p.parent == Some(cur) then Some(init) else p.parent)
                && proc[i].state == (if i == cur then ZOMBIE
                                     else if p.state == SLEEPING && p.chan == ChanOf(old(proc)[cur].parent) then RUNNABLE
                                     else if p.state == SLEEPING && p.chan == ProcChan(init) && HasZombie(old(proc), cur) then RUNNABLE
                                     else p.state)
      ensures proc == ExitTable(old(proc), cur, init)
    {
      ghost var t := proc;
      DoWakeup1(ChanOf(proc[cur].parent));
      var i := 0;
      ghost var seen := false;
      while i < |proc|
        invariant 0 <= i <= |proc| == |t|
        invariant seen <==> exists j :: 0 <= j < i && t[j].parent == Some(cur) && t[j].state.ZOMBIE?
        invariant forall j :: 0 <= j < |t| ==> proc[j] == ExitPartly(t, cur, init, i, seen, j)
      {
        if proc[i].parent == Some(cur) {
          proc := proc[i := proc[i].(parent := Some(init))];
          if proc[i].state.ZOMBIE? {
            DoWakeup1(ProcChan(init));
            seen := true;
          }
        }
        i := i + 1;
      }
      proc := proc[cur := proc[cur].(state := ZOMBIE)];
    }

    /** One pass of wait()'s outer loop. */
    method Wait(cur: nat) returns (r: WaitResult)
      requires cur < |proc|
      modifies `proc
      ensures r.NoChild? <==>
                || (forall i :: 0 <= i < |old(proc)| ==> old(proc)[i].parent != Some(cur))
                || (old(proc)[cur].killed && forall i :: 0 <= i < |old(proc)| && old(proc)[i].parent == Some(cur) ==> old(proc)[i].state != ZOMBIE)
      ensures r.Slept? <==>
                && (exists i :: 0 <= i < |old(proc)| && old(proc)[i].parent == Some(cur))
                && (forall i :: 0 <= i < |old(proc)| && old(proc)[i].parent == Some(cur) ==> old(proc)[i].state != ZOMBIE)
                && !old(proc)[cur].killed
      ensures r.NoChild? ==> proc == old(proc)
      ensures r.Slept? ==> proc == old(proc)[cur := old(proc)[cur].(chan := ProcChan(cur), state := SLEEPING)]
      ensures r.Pid? ==> exists z ::
                && 0 <= z < |old(proc)| && old(proc)[z].parent == Some(cur) && old(proc)[z].state == ZOMBIE && r.pid == old(proc)[z].pid
                && (forall i :: 0 <= i < z && old(proc)[i].parent == Some(cur) ==> old(proc)[i].state != ZOMBIE)
                && proc == old(proc)[z := old(proc)[z].(state := UNUSED, pid := 0, parent := None, killed := false)]
      ensures (r, proc) == WaitTable(old(proc), cur)
    {
      var havekids := false;
      var i := 0;
      while i < |proc|
        invariant 0 <= i <= |proc| && proc == old(proc)
        invariant FirstZombie(proc, cur, 0) == FirstZombie(proc, cur, i)
        invariant havekids <==> exists j :: 0 <= j < i && proc[j].parent == Some(cur)
      {
        if proc[i].parent == Some(cur) {
          havekids := true;
          if proc[i].state.ZOMBIE? {
            r := Pid(proc[i].pid);
            proc := proc[i := proc[i].(state := UNUSED, pid := 0, parent := None, killed := false)];
            return;
          }
        }
        i := i + 1;
      }
      if !havekids || proc[cur].killed {
        return NoChild;
      }
      proc := proc[cur := proc[cur].(chan := ProcChan(cur), state := SLEEPING)];
      return Slept;
    }

    /** kill(): false when there is no such process. */
    method Kill(pid: int) returns (ok: bool)
      modifies `proc
      ensures ok <==> exists i :: 0 <= i < |old(proc)| && old(proc)[i].pid == pid
      ensures ok ==> exists i ::
                && 0 <= i < |old(proc)| && old(proc)[i].pid == pid && (forall j :: 0 <= j < i ==> old(proc)[j].pid != pid)
                && |proc| == |old(proc)| && proc == old(proc)[i := proc[i]]
                && proc[i] == old(proc)[i].(killed := true, state := proc[i].state)
                && proc[i].state == if old(proc)[i].state == SLEEPING then RUNNABLE else old(proc)[i].state
      ensures ok <==> FirstPid(old(proc), pid, 0).Some?
      ensures proc == if ok then var i := FirstPid(old(proc), pid, 0).value; old(proc)[i := Killed(old(proc)[i])] else old(proc)
    {
      var i := 0;
      while i < |proc|
        invariant 0 <= i <= |proc| && proc == old(proc)
        invariant FirstPid(proc, pid, 0) == FirstPid(proc, pid, i)
      {
        if proc[i].pid == pid {
          proc := proc[i := proc[i].(killed := true)];
          if proc[i].state.SLEEPING? {
            proc := proc[i := proc[i].(state := RUNNABLE)];
          }
          return true;
        }
        i := i + 1;
      }
      return false;
    }

    /** Slot `j` once the loop of exit() has handled the slots below `i`. */
    ghost function ExitPartly(t: Table, cur: nat, init: nat, i: nat, seen: bool, j: nat): (r: Proc)
      requires cur < |t| && j < |t|
    {
      var p := Woken(t[j], ChanOf(t[cur].parent));
      var q := if j < i then Adopted(p, cur, init) else p;
      if seen then Woken(q, ProcChan(init)) else q
    }
  }
}
