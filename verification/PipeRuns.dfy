/** Any number of readers and writers on one pipe: each critical section of pipe.c is one step, ending
    where the code releases the lock or sleeps. */
module PipeRuns {
  import opened Options
  import opened Blocks
  import opened Pipe

  /** Where a process is with respect to the pipe; `call` is the number of its pipewrite. */
  datatype User = Away | Writing(call: nat, buf: seq<Byte>, i: nat, asleep: bool) | Reading(n: nat, asleep: bool)

  datatype Fate = Going | Returned | GaveUp

  /** A pipewrite() of `buf` by process `p`, and a piperead() that has returned: with these bytes, or with -1. */
  datatype WriteCall = WriteCall(p: nat, buf: seq<Byte>, fate: Fate)
  datatype ReadCall = ReadCall(p: nat, n: nat, got: Option<seq<Byte>>)

  /** `stored` and `delivered` record every byte put into and taken out of the pipe, `origin` the call each byte
      stored comes from, `writes` and `fetches` the calls. */
  datatype State = State(ring: Ring, readopen: bool, writeopen: bool, user: seq<User>, killed: set<nat>,
                         stored: seq<Byte>, origin: seq<nat>, delivered: seq<Byte>, writes: seq<WriteCall>, fetches: seq<ReadCall>)

  datatype Event =
    | Write(p: nat, buf: seq<Byte>)
    | Read(p: nat, n: nat)
    | Resume(p: nat)
    | CloseRead
    | CloseWrite
    | Kill(p: nat)

  // ---------------------------------------------------------------- steps

  /** wakeup(&p->nread) and wakeup(&p->nwrite) */
  function Wake(u: User, readers: bool): (r: User) {
    match u
    case Away => Away
    case Writing(c, buf, i, asleep) => Writing(c, buf, i, asleep && readers)
    case Reading(n, asleep) => Reading(n, asleep && !readers)
  }

  function WakeAll(us: seq<User>, readers: bool): (r: seq<User>)
    ensures |r| == |us| && forall i :: 0 <= i < |us| ==> r[i] == Wake(us[i], readers)
  {
    seq(|us|, i requires 0 <= i < |us| => Wake(us[i], readers))
  }

  /** The books when pipewrite() is called. */
  function Begun(s: State, p: nat, buf: seq<Byte>): (r: State) {
    s.(writes := s.writes + [WriteCall(p, buf, Going)])
  }

  /** pipewrite() number `c` from byte `i` of `buf`: store what fits; then return, give up, or sleep. */
  function WriteRegion(s: State, p: nat, c: nat, buf: seq<Byte>, i: nat): (r: State)
    requires ValidRing(s.ring) && p < |s.user| && c < |s.writes| && i <= |buf|
  {
    var k := Fitting(s.ring, |buf| - i);
    var t := s.(ring := PutAll(s.ring, buf[i..i + k]), stored := s.stored + buf[i..i + k], origin := s.origin + seq(k, _ => c));
    if i + k == |buf| then
      t.(user := WakeAll(s.user, true)[p := Away], writes := s.writes[c := s.writes[c].(fate := Returned)])
    else if !s.readopen || p in s.killed then
      t.(user := s.user[p := Away], writes := s.writes[c := s.writes[c].(fate := GaveUp)])
    else t.(user := WakeAll(s.user, true)[p := Writing(c, buf, i + k, true)])
  }

  /** piperead(): sleep while the pipe is empty and open for writing; otherwise take what there is. */
  function ReadRegion(s: State, p: nat, n: nat): (r: State)
    requires ValidRing(s.ring) && p < |s.user|
  {
    if IsEmpty(s.ring) && s.writeopen then
      if p in s.killed then s.(user := s.user[p := Away], fetches := s.fetches + [ReadCall(p, n, None)])
      else s.(user := s.user[p := Reading(n, true)])
    else
      var m := if n <= Count(s.ring) then n else Count(s.ring);
      s.(ring := DropAll(s.ring, m), delivered := s.delivered + Queue(s.ring)[..m],
         fetches := s.fetches + [ReadCall(p, n, Some(Queue(s.ring)[..m]))], user := WakeAll(s.user, false)[p := Away])
  }

  /** A system call holds its end of the pipe open, so an end is closed only when nobody uses it. */
  predicate NoneReading(us: seq<User>) {
    forall i :: 0 <= i < |us| ==> !us[i].Reading?
  }

  predicate NoneWriting(us: seq<User>) {
    forall i :: 0 <= i < |us| ==> !us[i].Writing?
  }

  function Step(s: State, e: Event): (r: Option<State>)
    requires ValidRing(s.ring)
  {
    match e
    case Write(p, buf) =>
      if p < |s.user| && s.user[p].Away? && s.writeopen then Some(WriteRegion(Begun(s, p, buf), p, |s.writes|, buf, 0)) else None
    case Read(p, n) =>
      if p < |s.user| && s.user[p].Away? && s.readopen then Some(ReadRegion(s, p, n)) else None
    case Resume(p) =>
      if p >= |s.user| then None
      else
        (match s.user[p]
         case Away => None
         case Writing(c, buf, i, asleep) =>
           if asleep || c >= |s.writes| || i > |buf| then None else Some(WriteRegion(s, p, c, buf, i))
         case Reading(n, asleep) => if asleep then None else Some(ReadRegion(s, p, n)))
    case CloseRead =>
      if s.readopen && NoneReading(s.user) then Some(s.(readopen := false, user := WakeAll(s.user, false))) else None
    case CloseWrite =>
      if s.writeopen && NoneWriting(s.user) then Some(s.(writeopen := false, user := WakeAll(s.user, true))) else None
    case Kill(p) =>
      if p >= |s.user| then None
      else Some(s.(killed := s.killed + {p}, user := s.user[p := Wake(Wake(s.user[p], true), false)]))
  }

  function Run(s: State, es: seq<Event>): (r: Option<State>) {
    if es == [] then Some(s)
    else
      var t := Run(s, es[..|es| - 1]);
      if t.None? || !ValidRing(t.value.ring) then None else Step(t.value, es[|es| - 1])
  }

  predicate Init(s: State) {
    && ValidRing(s.ring) && Queue(s.ring) == [] && s.readopen && s.writeopen && s.killed == {}
    && s.stored == [] && s.origin == [] && s.delivered == [] && s.writes == [] && s.fetches == []
    && forall i :: 0 <= i < |s.user| ==> s.user[i].Away?
  }

  // ---------------------------------------------------------------- invariants

  /** Every byte stored is delivered exactly once and in order, or still queued. */
  ghost predicate Fifo(s: State) {
    ValidRing(s.ring) && s.delivered + Queue(s.ring) == s.stored
  }

  /** A reader sleeps only on an empty pipe that can still be written, a writer only on a full one that
      can still be read. */
  ghost predicate Settled(s: State)
    requires ValidRing(s.ring)
  {
    forall i :: 0 <= i < |s.user| ==>
      && (s.user[i].Reading? && s.user[i].asleep ==> Count(s.ring) == 0 && s.writeopen)
      && (s.user[i].Writing? && s.user[i].asleep ==> Count(s.ring) == PIPESIZE && s.readopen)
  }

  /** Nobody is inside a call on an end that is closed. */
  ghost predicate EndsOpen(s: State) {
    (!s.readopen ==> NoneReading(s.user)) && (!s.writeopen ==> NoneWriting(s.user))
  }

  lemma {:induction false} FifoStep(s: State, e: Event)
    requires Fifo(s) && Step(s, e).Some?
    ensures Fifo(Step(s, e).value)
  {
    hide Queue, Count;
    match e {
      case Write(p, buf) => FifoWrite(Begun(s, p, buf), p, |s.writes|, buf, 0);
      case Read(p, n) => FifoRead(s, p, n);
      case Resume(p) =>
        match s.user[p] {
          case Writing(c, buf, i, _) => FifoWrite(s, p, c, buf, i);
          case Reading(n, _) => FifoRead(s, p, n);
        }
      case CloseRead =>
      case CloseWrite =>
      case Kill(p) =>
    }
  }

  lemma {:induction false} FifoWrite(s: State, p: nat, c: nat, buf: seq<Byte>, i: nat)
    requires Fifo(s) && p < |s.user| && c < |s.writes| && i <= |buf|
    ensures Fifo(WriteRegion(s, p, c, buf, i))
    ensures Count(WriteRegion(s, p, c, buf, i).ring) == Count(s.ring) + Fitting(s.ring, |buf| - i)
  {
    hide Queue, Count, PutAll, WakeAll;
    var k := Fitting(s.ring, |buf| - i);
    PutAllQueue(s.ring, buf[i..i + k]);
  }

  lemma {:induction false} FifoRead(s: State, p: nat, n: nat)
    requires Fifo(s) && p < |s.user|
    ensures Fifo(ReadRegion(s, p, n))
  {
    hide Queue, Count;
    if !(IsEmpty(s.ring) && s.writeopen) {
      var m := if n <= Count(s.ring) then n else Count(s.ring);
      DropAllQueue(s.ring, m);
      assert Queue(s.ring) == Queue(s.ring)[..m] + Queue(s.ring)[m..];
    }
  }

  // ---------------------------------------------------------------- sleepers

  ghost predicate ReaderAsleep(s: State) {
    exists i :: 0 <= i < |s.user| && s.user[i].Reading? && s.user[i].asleep
  }

  /** pipewrite() by a killed process that stored something, filled the pipe and gave up: the one exit
      that should have woken the readers and does not. */
  ghost predicate SkipsWakeup(s: State, p: nat, buf: seq<Byte>, i: nat)
    requires ValidRing(s.ring) && i <= |buf|
  {
    p in s.killed && s.readopen && 0 < Fitting(s.ring, |buf| - i) < |buf| - i
  }

  /** The exact effect of pipewrite() on sleepers: all is well afterwards unless the wakeup was skipped
      while a reader slept. */
  lemma {:induction false} SettledWrite(s: State, p: nat, c: nat, buf: seq<Byte>, i: nat)
    requires Fifo(s) && Settled(s) && EndsOpen(s) && s.writeopen && p < |s.user| && c < |s.writes| && i <= |buf|
    requires !(s.user[p].Reading? && s.user[p].asleep)
    ensures Fifo(WriteRegion(s, p, c, buf, i))
    ensures Settled(WriteRegion(s, p, c, buf, i)) <==> !(SkipsWakeup(s, p, buf, i) && ReaderAsleep(s))
  {
    FifoWrite(s, p, c, buf, i);
    hide Queue, Count;
    var r := WriteRegion(s, p, c, buf, i);
    var k := Fitting(s.ring, |buf| - i);
    if SkipsWakeup(s, p, buf, i) && ReaderAsleep(s) {
      var j :| 0 <= j < |s.user| && s.user[j].Reading? && s.user[j].asleep;
      assert r.user[j] == s.user[j];
    } else {
      forall j | 0 <= j < |r.user|
        ensures r.user[j].Reading? && r.user[j].asleep ==> Count(r.ring) == 0 && r.writeopen
        ensures r.user[j].Writing? && r.user[j].asleep ==> Count(r.ring) == PIPESIZE && r.readopen
      {
      }
    }
  }

  lemma {:induction false} SettledRead(s: State, p: nat, n: nat)
    requires Fifo(s) && Settled(s) && EndsOpen(s) && s.readopen && p < |s.user|
    requires !(s.user[p].Writing? && s.user[p].asleep)
    ensures Fifo(ReadRegion(s, p, n)) && Settled(ReadRegion(s, p, n))
  {
    FifoRead(s, p, n);
    FullEmpty(s.ring);
    hide Queue, Count;
    var r := ReadRegion(s, p, n);
    forall j | 0 <= j < |r.user|
      ensures r.user[j].Reading? && r.user[j].asleep ==> Count(r.ring) == 0 && r.writeopen
      ensures r.user[j].Writing? && r.user[j].asleep ==> Count(r.ring) == PIPESIZE && r.readopen
    {
      if IsEmpty(s.ring) && s.writeopen {
        assert j != p ==> r.user[j] == s.user[j];
      } else if Count(s.ring) == 0 {
        assert DropAll(s.ring, 0) == s.ring;
      }
    }
  }

  lemma {:induction false} OpenStep(s: State, e: Event)
    requires ValidRing(s.ring) && EndsOpen(s) && Step(s, e).Some?
    ensures EndsOpen(Step(s, e).value)
  {
    hide Queue, Count, PutAll, DropAll;
  }

  /** The step is a pipewrite() that skips the wakeup while a reader sleeps. */
  ghost predicate LosesWakeup(s: State, e: Event)
    requires ValidRing(s.ring)
  {
    ReaderAsleep(s)
    && match e
       case Write(p, buf) => SkipsWakeup(s, p, buf, 0)
       case Resume(p) => p < |s.user| && s.user[p].Writing? && s.user[p].i <= |s.user[p].buf| && SkipsWakeup(s, p, s.user[p].buf, s.user[p].i)
       case _ => false
  }

  lemma {:induction false} BegunSame(s: State, p: nat, buf: seq<Byte>)
    requires Fifo(s) && Settled(s) && EndsOpen(s)
    ensures var t := Begun(s, p, buf);
            && Fifo(t) && Settled(t) && EndsOpen(t)
            && (ReaderAsleep(t) <==> ReaderAsleep(s)) && (SkipsWakeup(t, p, buf, 0) <==> SkipsWakeup(s, p, buf, 0))
  {
    hide Queue, Count, Fitting;
  }

  /** A step, a kill among them, keeps the sleepers settled exactly unless it loses a wakeup. */
  lemma {:induction false} SettledStep(s: State, e: Event)
    requires Fifo(s) && Settled(s) && EndsOpen(s) && Step(s, e).Some?
    ensures Fifo(Step(s, e).value)
    ensures Settled(Step(s, e).value) <==> !LosesWakeup(s, e)
  {
    hide Queue, Count, PutAll, DropAll, ReaderAsleep, SkipsWakeup;
    FifoStep(s, e);
    match e {
      case Write(p, buf) =>
        BegunSame(s, p, buf);
        SettledWrite(Begun(s, p, buf), p, |s.writes|, buf, 0);
      case Read(p, n) => SettledRead(s, p, n);
      case Resume(p) =>
        match s.user[p] {
          case Writing(c, buf, i, _) => SettledWrite(s, p, c, buf, i);
          case Reading(n, _) => SettledRead(s, p, n);
        }
      case CloseRead =>
      case CloseWrite =>
      case Kill(p) =>
    }
  }

  // ---------------------------------------------------------------- main results

  lemma {:induction false} RunOpen(s: State, es: seq<Event>)
    requires Init(s) && Run(s, es).Some?
    ensures Fifo(Run(s, es).value) && EndsOpen(Run(s, es).value)
  {
    hide Step, Queue;
    if es != [] {
      var t := Run(s, es[..|es| - 1]).value;
      RunOpen(s, es[..|es| - 1]);
      FifoStep(t, es[|es| - 1]);
      OpenStep(t, es[|es| - 1]);
    }
  }

  /** Whatever the readers, writers, closers and killers do: the bytes taken out are, in order, a prefix
      of the bytes put in, and the rest are in the pipe, even after the counters wrap. */
  lemma {:induction false} PipeIsQueue(s: State, es: seq<Event>)
    requires Init(s) && Run(s, es).Some?
    ensures Fifo(Run(s, es).value)
  {
    RunOpen(s, es);
  }

  /** No step of the run loses a wakeup. */
  ghost predicate NoneLost(s: State, es: seq<Event>) {
    es != [] ==>
      var front := es[..|es| - 1];
      && NoneLost(s, front)
      && var t := Run(s, front);
         t.Some? && ValidRing(t.value.ring) ==> !LosesWakeup(t.value, es[|es| - 1])
  }

  /** In every run, kills and all, in which no step loses a wakeup: whoever sleeps has good reason to; in
      particular never both sides. */
  lemma {:induction false} NoLostWakeup(s: State, es: seq<Event>)
    requires Init(s) && Run(s, es).Some? && NoneLost(s, es)
    ensures Fifo(Run(s, es).value) && Settled(Run(s, es).value)
  {
    hide Step, Queue, Count, LosesWakeup;
    if es == [] {
      assert Fifo(s) && Settled(s);
    } else {
      var t := Run(s, es[..|es| - 1]).value;
      NoLostWakeup(s, es[..|es| - 1]);
      RunOpen(s, es[..|es| - 1]);
      SettledStep(t, es[|es| - 1]);
    }
  }

  /** As long as nobody is killed, no wakeup is lost. */
  lemma {:induction false} UnkilledLosesNone(s: State, es: seq<Event>)
    requires Init(s) && Run(s, es).Some? && forall k :: 0 <= k < |es| ==> !es[k].Kill?
    ensures NoneLost(s, es) && Run(s, es).value.killed == {}
  {
    hide Queue, Count, PutAll, DropAll, Fitting, WakeAll;
    if es != [] {
      var n := |es| - 1;
      assert forall k :: 0 <= k < n ==> es[..n][k] == es[k];
      UnkilledLosesNone(s, es[..n]);
      assert !es[n].Kill?;
    }
  }

  // ---------------------------------------------------------------- a killed writer can lose a wakeup

  function Fresh(): (s: State) {
    State(Ring(seq(PIPESIZE, _ => 0), 0, 0), true, true, [Away, Away], {}, [], [], [], [], [])
  }

  /** A writer fills the pipe twice over while a reader empties it in between and then waits for more;
      the writer is killed before it resumes. */
  function Unlucky(): (es: seq<Event>) {
    [Write(0, seq(2 * PIPESIZE + 1, _ => 0)), Read(1, PIPESIZE), Read(1, 1), Kill(0), Resume(0)]
  }

  lemma {:induction false} RunSnoc(s: State, es: seq<Event>, e: Event)
    ensures Run(s, es + [e])
            == var t := Run(s, es); if t.None? || !ValidRing(t.value.ring) then None else Step(t.value, e)
  {
    assert (es + [e])[..|es|] == es;
  }

  lemma {:induction false} FillFromEmpty(s: State, p: nat, c: nat, buf: seq<Byte>, i: nat)
    requires Fifo(s) && Count(s.ring) == 0 && p < |s.user| && c < |s.writes| && i + PIPESIZE < |buf|
    ensures Fifo(WriteRegion(s, p, c, buf, i)) && Count(WriteRegion(s, p, c, buf, i).ring) == PIPESIZE
    ensures Fitting(s.ring, |buf| - i) == PIPESIZE
  {
    FifoWrite(s, p, c, buf, i);
    hide Queue, Count;
  }

  lemma {:induction false} DrainFull(s: State, p: nat)
    requires Fifo(s) && Count(s.ring) == PIPESIZE && p < |s.user|
    ensures Fifo(ReadRegion(s, p, PIPESIZE)) && Count(ReadRegion(s, p, PIPESIZE).ring) == 0 && !IsEmpty(s.ring)
  {
    FifoRead(s, p, PIPESIZE);
    FullEmpty(s.ring);
    DropAllQueue(s.ring, PIPESIZE);
    hide Queue, Count;
  }

  /** The writer has filled the pipe once and woken up again, the reader has emptied it and sleeps. */
  ghost predicate Halfway(s: State, buf: seq<Byte>) {
    && Fifo(s) && Count(s.ring) == 0 && s.readopen && s.writeopen && s.killed == {} && |s.writes| == 1
    && s.user == [Writing(0, buf, PIPESIZE, false), Reading(1, true)]
  }

  lemma {:induction false} UnluckyStart(buf: seq<Byte>) returns (s1: State, s2: State, s3: State)
    requires |buf| == 2 * PIPESIZE + 1
    ensures Init(Fresh()) && ValidRing(s1.ring) && ValidRing(s2.ring) && Halfway(s3, buf)
    ensures Step(Fresh(), Write(0, buf)) == Some(s1) && Step(s1, Read(1, PIPESIZE)) == Some(s2) && Step(s2, Read(1, 1)) == Some(s3)
  {
    var s0 := Fresh();
    assert Init(s0) && Fifo(s0) && Count(s0.ring) == 0;
    hide Queue, Count, IsFull, IsEmpty, PutAll, DropAll, Run, Fifo;
    var b0 := Begun(s0, 0, buf);
    FifoBooks(s0, b0);
    FillFromEmpty(b0, 0, 0, buf, 0);
    s1 := WriteRegion(b0, 0, 0, buf, 0);
    FifoValid(s1);
    DrainFull(s1, 1);
    s2 := ReadRegion(s1, 1, PIPESIZE);
    FifoValid(s2);
    FullEmpty(s2.ring);
    s3 := ReadRegion(s2, 1, 1);
    assert s3 == s2.(user := [Writing(0, buf, PIPESIZE, false), Reading(1, true)]);
    FifoRead(s2, 1, 1);
  }

  lemma {:induction false} UnluckyEnd(s3: State, buf: seq<Byte>) returns (s4: State, s5: State)
    requires |buf| == 2 * PIPESIZE + 1 && Halfway(s3, buf)
    ensures ValidRing(s3.ring) && ValidRing(s4.ring) && ValidRing(s5.ring)
    ensures Step(s3, Kill(0)) == Some(s4) && Step(s4, Resume(0)) == Some(s5)
    ensures IsFull(s5.ring) && s5.user == [Away, Reading(1, true)]
  {
    hide Queue, Count, IsFull, IsEmpty, PutAll, DropAll, Run, Fifo;
    FifoValid(s3);
    s4 := s3.(killed := {0});
    assert s3.killed + {0} == {0} && s3.user[0 := s3.user[0]] == s3.user;
    FifoBooks(s3, s4);
    FillFromEmpty(s4, 0, 0, buf, PIPESIZE);
    s5 := WriteRegion(s4, 0, 0, buf, PIPESIZE);
    FifoValid(s5);
    FullEmpty(s5.ring);
  }

  /** The run ends with the reader asleep in front of a full pipe that nobody will announce. */
  lemma {:induction false} KilledWriterLosesWakeup()
    ensures var r := Run(Fresh(), Unlucky());
            && Init(Fresh()) && r.Some? && |r.value.user| == 2 && r.value.user[1] == Reading(1, true)
            && ValidRing(r.value.ring) && IsFull(r.value.ring) && !Settled(r.value) && !NoneLost(Fresh(), Unlucky())
  {
    hide Queue, Count, IsFull, IsEmpty, Run, Fifo, Step, NoneLost;
    var buf: seq<Byte> := seq(2 * PIPESIZE + 1, _ => 0);
    var s1, s2, s3 := UnluckyStart(buf);
    var s4, s5 := UnluckyEnd(s3, buf);
    UnluckyRun(Fresh(), s1, s2, s3, s4, s5);
    assert !Settled(s5) by {
      FullEmpty(s5.ring);
      assert s5.user[1] == Reading(1, true);
    }
    if NoneLost(Fresh(), Unlucky()) {
      NoLostWakeup(Fresh(), Unlucky());
    }
  }

  lemma {:induction false} FifoValid(s: State)
    requires Fifo(s)
    ensures ValidRing(s.ring)
  {
  }

  lemma {:induction false} FifoBooks(s: State, t: State)
    requires Fifo(s) && t == s.(user := t.user, killed := t.killed, writes := t.writes)
    ensures Fifo(t)
  {
  }

  lemma {:induction false} UnluckyRun(s0: State, s1: State, s2: State, s3: State, s4: State, s5: State)
    requires ValidRing(s0.ring) && ValidRing(s1.ring) && ValidRing(s2.ring) && ValidRing(s3.ring) && ValidRing(s4.ring)
    requires Step(s0, Unlucky()[0]) == Some(s1) && Step(s1, Unlucky()[1]) == Some(s2) && Step(s2, Unlucky()[2]) == Some(s3)
    requires Step(s3, Unlucky()[3]) == Some(s4) && Step(s4, Unlucky()[4]) == Some(s5)
    ensures Run(s0, Unlucky()) == Some(s5)
  {
    hide Step, Queue;
    var es := Unlucky();
    RunSnoc(s0, [], es[0]);
    RunSnoc(s0, es[..1], es[1]);
    RunSnoc(s0, es[..2], es[2]);
    RunSnoc(s0, es[..3], es[3]);
    RunSnoc(s0, es[..4], es[4]);
    assert [] + [es[0]] == es[..1];
    assert es[..1] + [es[1]] == es[..2] && es[..2] + [es[2]] == es[..3] && es[..3] + [es[3]] == es[..4] && es[..4] + [es[4]] == es;
  }
}
