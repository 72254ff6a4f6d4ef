/** System calls on a file system one after the other (sysfile.c): what each of them answers, what it does
    to the inodes and references, and what all of them together do to link counts. */
module Calls {

  import opened Options
  import opened Blocks
  import opened Dirents
  import opened Namei
  import opened Links
  import opened SysFile

  // ---------------------------------------------------------------- what a call answers

  datatype Call =
    | DoLink(from: Name, to: Name)
    | DoUnlink(path: Name)
    | DoCreate(path: Name, typ: FileType)
    | DoOpen(path: Name, write: bool)
    | DoDup(held: nat)
    | DoClose(held: nat)

  /** A call, and the current directory of the process that makes it. */
  datatype Request = By(call: Call, cwd: nat)

  /** Success, with the inode opened if there is one; failure; or the end of the kernel. */
  datatype Reply = Done | Opened(i: nat) | Failed | Panics

  /** The file system between two calls. */
  datatype Moment = Moment(nodes: Nodes, refs: multiset<nat>, removed: set<nat>)

  ghost predicate Strings(c: Call) {
    match c
    case DoLink(from, to) => IsCString(from) && IsCString(to)
    case DoUnlink(path) => IsCString(path)
    case DoCreate(path, _) => IsCString(path)
    case DoOpen(path, _) => IsCString(path)
    case _ => true
  }

  ghost function FsAt(m: Moment): (s: Fs) {
    FsOf(m.nodes, m.removed, multiset{})
  }

  ghost function PathTo(m: Moment, path: Name, cwd: nat, parent: bool): (r: Resolved) {
    Resolve(m.nodes, Start(path, cwd), Elems(path), parent)
  }

  /** The inode ialloc() finds. */
  ghost function Spare(ns: Nodes, from: nat, ninodes: nat): (r: Option<nat>)
    decreases ninodes - from
  {
    if from >= ninodes then None else if from !in ns then Some(from) else Spare(ns, from + 1, ninodes)
  }

  lemma {:induction false} SpareIs(ns: Nodes, from: nat, ninodes: nat, spare: Option<nat>)
    requires FirstSpare(ns, ninodes, spare) && 1 <= from && (spare.Some? ==> from <= spare.value)
    ensures Spare(ns, from, ninodes) == spare
    decreases ninodes - from
  {
    if from < ninodes && from in ns {
      SpareIs(ns, from + 1, ninodes, spare);
    }
  }

  ghost function OfRet(r: Ret): (a: Reply) {
    match r case Zero => Done case MinusOne => Failed case Panic => Reply.Panics
  }

  ghost function OfCreated(r: Created): (a: Reply) {
    match r case Old(i) => Opened(i) case New(i) => Opened(i) case Nothing => Failed case Panicked => Reply.Panics
  }

  /** What create() comes to. */
  ghost function Creation(m: Moment, path: Name, typ: FileType, cwd: nat, ninodes: nat): (r: Created) {
    CreateResult(m.nodes, PathTo(m, path, cwd, true), LastName(path), typ, Spare(m.nodes, 1, ninodes))
  }

  /** The answer to a call. */
  ghost function ReplyTo(m: Moment, q: Request, ninodes: nat): (a: Reply) {
    match q.call
    case DoLink(from, to) =>
      OfRet(LinkResult(m.nodes, PathTo(m, from, q.cwd, false), PathTo(m, to, q.cwd, true), LastName(to)))
    case DoUnlink(path) => OfRet(UnlinkResult(FsAt(m), PathTo(m, path, q.cwd, true), LastName(path)))
    case DoCreate(path, typ) => OfCreated(Creation(m, path, typ, q.cwd, ninodes))
    case DoOpen(path, write) => OfCreated(OpenResult(m.nodes, PathTo(m, path, q.cwd, false), write))
    case DoDup(i) => if i in m.refs then Done else Failed
    case DoClose(i) => if i in m.refs then Done else Failed
  }

  // ---------------------------------------------------------------- what a call does

  ghost function RefsAfter(m: Moment, q: Request, a: Reply): (refs: multiset<nat>) {
    match a
    case Opened(i) => m.refs + multiset{i}
    case Done =>
      if q.call.DoDup? then m.refs + multiset{q.call.held}
      else if q.call.DoClose? then m.refs - multiset{q.call.held} else m.refs
    case _ => m.refs
  }

  ghost function FreeSteps(s: Fs, i: nat, refs: multiset<nat>): (es: seq<Event>) {
    if i in s.nodes && s.nodes[i].nlink == 0 && i !in refs then [Free(i)] else []
  }

  ghost function UnlinkSteps(s: Fs, d: nat, name: Name, refs: multiset<nat>): (es: seq<Event>) {
    if !Enabled(s, Unlink(d, name)) then []
    else
      var u := Step(s, Unlink(d, name));
      [Unlink(d, name)] + FreeSteps(u, d, refs) + FreeSteps(Freed(u, d, refs), s.nodes[d].ents[name], refs)
  }

  /** The steps of the system of links that a call amounts to. */
  ghost function StepsOf(m: Moment, q: Request, ninodes: nat): (es: seq<Event>) {
    match q.call
    case DoLink(from, to) =>
      var ip, dp := PathTo(m, from, q.cwd, false), PathTo(m, to, q.cwd, true);
      if LinkResult(m.nodes, ip, dp, LastName(to)) == Zero && ip.Reached? && dp.Reached?
      then [LinkStart(ip.i)] + [LinkFinish(ip.i, Some(dp.i), LastName(to))] else []
    case DoUnlink(path) =>
      var dp := PathTo(m, path, q.cwd, true);
      if dp.Reached? then UnlinkSteps(FsAt(m), dp.i, LastName(path), m.refs) else []
    case DoCreate(path, typ) =>
      var r, dp := Creation(m, path, typ, q.cwd, ninodes), PathTo(m, path, q.cwd, true);
      if r.New? && dp.Reached? then [Create(dp.i, LastName(path), r.i, typ == DirType)] else []
    case DoClose(i) => if i in m.refs then FreeSteps(FsAt(m), i, m.refs - multiset{i}) else []
    case _ => []
  }

  /** From `m` the call has led to `n`: exactly its steps were taken, exactly its reference was taken or given
      up, if there were no steps no inode has changed, and files are as they were. */
  ghost predicate Led(m: Moment, q: Request, ninodes: nat, n: Moment) {
    && Run(FsAt(m), StepsOf(m, q, ninodes), FsAt(n))
    && n.refs == RefsAfter(m, q, ReplyTo(m, q, ninodes))
    && (StepsOf(m, q, ninodes) == [] ==> n.nodes == m.nodes)
    && FilesKept(m.nodes, n.nodes) && MadeAs(m, q, ninodes, n)
  }

  /** A new inode is of the type asked for, and a new file is empty. */
  ghost predicate MadeAs(m: Moment, q: Request, ninodes: nat, n: Moment) {
    q.call.DoCreate? ==>
      var r := Creation(m, q.call.path, q.call.typ, q.cwd, ninodes);
      r.New? ==> r.i in n.nodes && n.nodes[r.i].typ == q.call.typ && (q.call.typ != DirType ==> n.nodes[r.i].content == [])
  }

  lemma {:induction false} RunNone(s: Fs)
    ensures Run(s, [], s)
  {
  }

  lemma {:induction false} RunLinked(s: Fs, t: Fs, ip: nat, dp: nat, name: Name)
    requires LinkedBy(s, t, ip, dp, name)
    ensures Run(s, [LinkStart(ip)] + [LinkFinish(ip, Some(dp), name)], t)
  {
    hide Enabled, Step, Run;
    RunStep(s, LinkStart(ip));
    RunStep(Step(s, LinkStart(ip)), LinkFinish(ip, Some(dp), name));
    RunAppend(s, [LinkStart(ip)], Step(s, LinkStart(ip)), [LinkFinish(ip, Some(dp), name)], t);
  }

  lemma {:induction false} RunFreed(s: Fs, i: nat, refs: multiset<nat>)
    ensures Run(s, FreeSteps(s, i, refs), Freed(s, i, refs))
  {
    hide Run, Step;
    if i in s.nodes && s.nodes[i].nlink == 0 && i !in refs {
      RunStep(s, Free(i));
    } else {
      RunNone(s);
    }
  }

  lemma {:induction false} RunUnlinked(s: Fs, t: Fs, d: nat, name: Name, refs: multiset<nat>)
    requires UnlinkedBy(s, t, d, name, refs)
    ensures Run(s, UnlinkSteps(s, d, name, refs), t)
  {
    EntryOf(s, d, name);
    hide Enabled, Step, Run, Freed, FreeSteps;
    var u := Step(s, Unlink(d, name));
    var v := Freed(u, d, refs);
    var i := s.nodes[d].ents[name];
    RunStep(s, Unlink(d, name));
    RunFreed(u, d, refs);
    RunAppend(s, [Unlink(d, name)], u, FreeSteps(u, d, refs), v);
    RunFreed(v, i, refs);
    RunAppend(s, [Unlink(d, name)] + FreeSteps(u, d, refs), v, FreeSteps(v, i, refs), t);
  }

  lemma {:induction false} EntryOf(s: Fs, d: nat, name: Name)
    requires Enabled(s, Unlink(d, name))
    ensures d in s.nodes && name in s.nodes[d].ents
  {
  }

  ghost function Now(f: Files, removed: set<nat>): (m: Moment)
    reads f
  {
    Moment(f.nodes, f.refs, removed)
  }

  /** sys_link() as one of the calls. */
  method CallLink(f: Files, from: Name, to: Name, cwd: nat, ninodes: nat, ghost removed: set<nat>) returns (a: Reply)
    requires IsCString(from) && IsCString(to) && Ready(f, removed, multiset{})
    modifies f`nodes, f`refs, f`loaded
    ensures a == ReplyTo(old(Now(f, removed)), By(DoLink(from, to), cwd), ninodes)
    ensures a != Reply.Panics ==>
              Ready(f, removed, multiset{}) && Led(old(Now(f, removed)), By(DoLink(from, to), cwd), ninodes, Now(f, removed))
  {
    hide Ready, Abs, Run, Step, Enabled, IsCString, LinkedBy, Resolve, Elems, LastName, LinkResult;
    ghost var s := FsOf(f.nodes, removed, multiset{});
    var r, ip, dp := SysLink(f, from, to, cwd, removed, multiset{});
    RunNone(s);
    if r == Zero {
      RunLinked(s, FsOf(f.nodes, removed, multiset{}), ip.i, dp.i, LastName(to));
    }
    a := match r case Zero => Done case MinusOne => Failed case Panic => Reply.Panics;
  }

  method CallUnlink(f: Files, path: Name, cwd: nat, ninodes: nat, ghost removed: set<nat>) returns (a: Reply, ghost gone: set<nat>)
    requires IsCString(path) && Ready(f, removed, multiset{})
    modifies f`nodes, f`refs, f`loaded
    ensures a == ReplyTo(old(Now(f, removed)), By(DoUnlink(path), cwd), ninodes)
    ensures a != Reply.Panics ==>
              Ready(f, gone, multiset{}) && Led(old(Now(f, removed)), By(DoUnlink(path), cwd), ninodes, Now(f, gone))
  {
    hide Ready, Abs, Run, Step, Enabled, IsCString, UnlinkedBy, Resolve, Elems, LastName, UnlinkSteps;
    ghost var s := FsOf(f.nodes, removed, multiset{});
    ghost var refs := f.refs;
    var r, dp, g := SysUnlink(f, path, cwd, removed, multiset{});
    gone := g;
    if r == Zero {
      RunUnlinked(s, FsOf(f.nodes, gone, multiset{}), dp.i, LastName(path), refs);
      SomeSteps(s, FsOf(f.nodes, gone, multiset{}), dp.i, LastName(path), refs);
    } else if dp.Reached? {
      RunNone(s);
      NoSteps(s, dp.i, LastName(path), refs);
    } else {
      RunNone(s);
    }
    a := match r case Zero => Done case MinusOne => Failed case Panic => Reply.Panics;
  }

  lemma {:induction false} SomeSteps(s: Fs, t: Fs, d: nat, name: Name, refs: multiset<nat>)
    requires UnlinkedBy(s, t, d, name, refs)
    ensures UnlinkSteps(s, d, name, refs) != []
  {
    hide Step, Freed, FreeSteps;
  }

  lemma {:induction false} NoSteps(s: Fs, d: nat, name: Name, refs: multiset<nat>)
    ensures !Enabled(s, Unlink(d, name)) ==> UnlinkSteps(s, d, name, refs) == []
  {
    hide Step, Freed, FreeSteps, Enabled;
  }

  method CallCreate(f: Files, path: Name, typ: FileType, cwd: nat, ninodes: nat, ghost removed: set<nat>) returns (a: Reply)
    requires IsCString(path) && Ready(f, removed, multiset{}) && ninodes <= 0x1_0000
    modifies f`nodes, f`refs, f`loaded
    ensures a == ReplyTo(old(Now(f, removed)), By(DoCreate(path, typ), cwd), ninodes)
    ensures a != Reply.Panics ==>
              Ready(f, removed, multiset{}) && Led(old(Now(f, removed)), By(DoCreate(path, typ), cwd), ninodes, Now(f, removed))
  {
    hide Ready, Abs, Run, Step, Enabled, IsCString, Resolve, Elems, LastName, CreateResult, FirstSpare;
    ghost var s := FsOf(f.nodes, removed, multiset{});
    ghost var ns := f.nodes;
    var r, dp, spare := CreateFile(f, path, typ, ninodes, cwd, removed, multiset{});
    SpareFound(ns, ninodes, spare);
    RunNone(s);
    if r.New? {
      RunStep(s, Create(dp.i, LastName(path), r.i, typ == DirType));
    }
    a := match r case Old(i) => Opened(i) case New(i) => Opened(i) case Nothing => Failed case Panicked => Reply.Panics;
  }

  lemma {:induction false} SpareFound(ns: Nodes, ninodes: nat, spare: Option<nat>)
    requires FirstSpare(ns, ninodes, spare)
    ensures Spare(ns, 1, ninodes) == spare
  {
    SpareIs(ns, 1, ninodes, spare);
  }

  method CallOpen(f: Files, path: Name, write: bool, cwd: nat, ninodes: nat, ghost removed: set<nat>) returns (a: Reply)
    requires IsCString(path) && Ready(f, removed, multiset{})
    modifies f`nodes, f`refs, f`loaded
    ensures a == ReplyTo(old(Now(f, removed)), By(DoOpen(path, write), cwd), ninodes)
    ensures a != Reply.Panics ==>
              Ready(f, removed, multiset{}) && Led(old(Now(f, removed)), By(DoOpen(path, write), cwd), ninodes, Now(f, removed))
  {
    hide Ready, Abs, Run, Step, Enabled, IsCString, Resolve, Elems;
    RunNone(FsOf(f.nodes, removed, multiset{}));
    var r, _ := OpenFile(f, path, write, cwd, removed, multiset{});
    a := match r case Old(i) => Opened(i) case New(i) => Opened(i) case Nothing => Failed case Panicked => Reply.Panics;
  }

  method CallDup(f: Files, i: nat, cwd: nat, ninodes: nat, ghost removed: set<nat>) returns (a: Reply)
    requires Ready(f, removed, multiset{})
    modifies f`nodes, f`refs, f`loaded
    ensures a == ReplyTo(old(Now(f, removed)), By(DoDup(i), cwd), ninodes)
    ensures Ready(f, removed, multiset{}) && Led(old(Now(f, removed)), By(DoDup(i), cwd), ninodes, Now(f, removed))
  {
    hide Abs, Run, Sane, Shaped, Held;
    RunNone(FsOf(f.nodes, removed, multiset{}));
    a := Failed;
    if i in f.refs {
      HeldMore(f.nodes, f.refs, f.refs + multiset{i}, f.loaded);
      f.Iget(i);
      a := Done;
    }
  }

  lemma {:induction false} AbsFreed(ns: Nodes, i: nat, refs: multiset<nat>, removed: set<nat>)
    ensures FreeSteps(FsOf(ns, removed, multiset{}), i, refs) == [] ==> SysFile.FreedNodes(ns, i, refs) == ns
    ensures FilesKept(ns, SysFile.FreedNodes(ns, i, refs))
  {
    if i in ns {
      AbsNlink(ns, i);
    }
  }

  method CallClose(f: Files, i: nat, cwd: nat, ninodes: nat, ghost removed: set<nat>) returns (a: Reply, ghost gone: set<nat>)
    requires Ready(f, removed, multiset{})
    modifies f`nodes, f`refs, f`loaded
    ensures a == ReplyTo(old(Now(f, removed)), By(DoClose(i), cwd), ninodes)
    ensures Ready(f, gone, multiset{}) && Led(old(Now(f, removed)), By(DoClose(i), cwd), ninodes, Now(f, gone))
  {
    hide Ready, Abs, Run, SysFile.FreedNodes, FreeSteps;
    ghost var s := FsOf(f.nodes, removed, multiset{});
    RunNone(s);
    a, gone := Failed, removed;
    if i in f.refs {
      ghost var ns := f.nodes;
      gone := CloseFile(f, i, removed, multiset{});
      RunFreed(s, i, f.refs);
      AbsFreed(ns, i, f.refs, removed);
      a := Done;
    }
  }

  /** One call: it answers what it should, and leads where it should. */
  method DoCall(f: Files, q: Request, ninodes: nat, ghost removed: set<nat>) returns (a: Reply, ghost gone: set<nat>)
    requires Strings(q.call) && Ready(f, removed, multiset{}) && ninodes <= 0x1_0000
    modifies f`nodes, f`refs, f`loaded
    ensures a == ReplyTo(old(Now(f, removed)), q, ninodes)
    ensures a != Reply.Panics ==> Ready(f, gone, multiset{}) && Led(old(Now(f, removed)), q, ninodes, Now(f, gone))
  {
    hide Ready, IsCString, ReplyTo, Led;
    gone := removed;
    match q.call {
      case DoLink(from, to) => a := CallLink(f, from, to, q.cwd, ninodes, removed);
      case DoUnlink(path) => a, gone := CallUnlink(f, path, q.cwd, ninodes, removed);
      case DoCreate(path, typ) => a := CallCreate(f, path, typ, q.cwd, ninodes, removed);
      case DoOpen(path, write) => a := CallOpen(f, path, write, q.cwd, ninodes, removed);
      case DoDup(i) => a := CallDup(f, i, q.cwd, ninodes, removed);
      case DoClose(i) => a, gone := CallClose(f, i, q.cwd, ninodes, removed);
    }
    assert q == By(q.call, q.cwd);
  }

  // ---------------------------------------------------------------- one call after another

  /** What holds of the file system between calls. */
  ghost predicate Fit(m: Moment) {
    && Shaped(m.nodes) && AllThere(m.nodes, m.refs) && Sane(FsAt(m))
    && forall i :: i in m.nodes && m.nodes[i].nlink == 0 ==> i in m.refs
  }

  ghost predicate Ended(replies: seq<Reply>) {
    replies != [] && replies[|replies| - 1] == Reply.Panics
  }

  /** `replies` are the answers to the first calls, and `ms` the moments before, between and after them, as
      long as none panics: each answer is the one due at its moment, and each call but one that panics has led
      from its moment to the next. */
  ghost predicate Story(calls: seq<Request>, ninodes: nat, replies: seq<Reply>, ms: seq<Moment>) {
    && |replies| <= |calls| && |ms| == (if Ended(replies) then |replies| else |replies| + 1)
    && (forall k :: 0 <= k < |replies| ==> replies[k] == ReplyTo(ms[k], calls[k], ninodes))
    && (forall k :: 0 <= k < |ms| - 1 ==> replies[k] != Reply.Panics && Led(ms[k], calls[k], ninodes, ms[k + 1]))
    && (forall k :: 0 <= k < |ms| ==> Fit(ms[k]))
  }

  lemma {:induction false} StoryStart(calls: seq<Request>, ninodes: nat, m: Moment)
    requires Fit(m)
    ensures Story(calls, ninodes, [], [m])
  {
    hide Fit;
  }

  lemma {:induction false} StoryMore(calls: seq<Request>, ninodes: nat, replies: seq<Reply>, ms: seq<Moment>, a: Reply, m: Moment)
    requires Story(calls, ninodes, replies, ms) && !Ended(replies) && |replies| < |calls|
    requires a == ReplyTo(ms[|ms| - 1], calls[|replies|], ninodes)
    ensures a == Reply.Panics ==> Story(calls, ninodes, replies + [a], ms)
    ensures a != Reply.Panics && Led(ms[|ms| - 1], calls[|replies|], ninodes, m) && Fit(m) ==>
              Story(calls, ninodes, replies + [a], ms + [m]) && !Ended(replies + [a])
  {
    hide Fit, Led, ReplyTo;
  }

  lemma {:induction false} ReadyFit(f: Files, removed: set<nat>)
    requires Ready(f, removed, multiset{})
    ensures Fit(Now(f, removed))
  {
    hide Sane, Shaped;
  }

  lemma {:induction false} NotEnded()
    ensures !Ended([])
  {
  }

  lemma {:induction false} NowEnded(replies: seq<Reply>)
    ensures Ended(replies + [Reply.Panics])
  {
  }

  /** Calls one after the other, until there are no more or one panics. */
  method RunCalls(f: Files, calls: seq<Request>, ninodes: nat, ghost removed: set<nat>)
    returns (replies: seq<Reply>, ghost ms: seq<Moment>)
    requires (forall k :: 0 <= k < |calls| ==> Strings(calls[k].call)) && Ready(f, removed, multiset{}) && ninodes <= 0x1_0000
    modifies f`nodes, f`refs, f`loaded
    ensures Story(calls, ninodes, replies, ms) && ms != [] && ms[0] == old(Now(f, removed))
    ensures Ended(replies) || |replies| == |calls|
    ensures !Ended(replies) ==> var m := ms[|ms| - 1]; m == Now(f, m.removed) && Ready(f, m.removed, multiset{})
  {
    hide Ready, Strings, Story, ReplyTo, Led, Fit, Ended;
    NotEnded();
    ReadyFit(f, removed);
    StoryStart(calls, ninodes, Now(f, removed));
    ghost var gone := removed;
    replies, ms := [], [Now(f, removed)];
    for k := 0 to |calls|
      invariant Story(calls, ninodes, replies, ms) && !Ended(replies) && |replies| == k && |ms| == k + 1
      invariant ms[0] == old(Now(f, removed)) && ms[k] == Now(f, gone) && Ready(f, gone, multiset{})
    {
      var a, g := DoCall(f, calls[k], ninodes, gone);
      if a == Reply.Panics {
        StoryMore(calls, ninodes, replies, ms, a, ms[k]);
        NowEnded(replies);
        replies := replies + [a];
        return;
      }
      gone := g;
      ReadyFit(f, gone);
      StoryMore(calls, ninodes, replies, ms, a, Now(f, gone));
      replies, ms := replies + [a], ms + [Now(f, gone)];
    }
  }

  // ---------------------------------------------------------------- link counts

  /** All the steps of the calls up to the last moment. */
  ghost function AllSteps(calls: seq<Request>, ninodes: nat, ms: seq<Moment>): (es: seq<Event>)
    requires |ms| <= |calls| + 1
  {
    if |ms| <= 1 then []
    else AllSteps(calls, ninodes, ms[..|ms| - 1]) + StepsOf(ms[|ms| - 2], calls[|ms| - 2], ninodes)
  }

  lemma {:induction false} StoryRuns(calls: seq<Request>, ninodes: nat, replies: seq<Reply>, ms: seq<Moment>, k: nat)
    requires Story(calls, ninodes, replies, ms) && k < |ms|
    ensures Run(FsAt(ms[0]), AllSteps(calls, ninodes, ms[..k + 1]), FsAt(ms[k]))
    decreases k
  {
    hide Run, StepsOf, FsAt, ReplyTo, Fit;
    if k == 0 {
      RunNone(FsAt(ms[0]));
    } else {
      StoryRuns(calls, ninodes, replies, ms, k - 1);
      assert ms[..k + 1][..k] == ms[..k];
      assert Led(ms[k - 1], calls[k - 1], ninodes, ms[k]);
      RunAppend(FsAt(ms[0]), AllSteps(calls, ninodes, ms[..k]), FsAt(ms[k - 1]), StepsOf(ms[k - 1], calls[k - 1], ninodes), FsAt(ms[k]));
    }
  }

  /** In every sequence of calls from a made file system, at every moment, all link counts are right if and only
      if no call so far freed a directory that had entries; and no inode has fewer links than entries. */
  lemma {:induction false} StoryCounts(calls: seq<Request>, ninodes: nat, replies: seq<Reply>, ms: seq<Moment>, k: nat)
    requires Story(calls, ninodes, replies, ms) && k < |ms| && FsAt(ms[0]) == Made()
    ensures LinksCounted(FsAt(ms[k])) <==> NothingLost(Made(), AllSteps(calls, ninodes, ms[..k + 1]))
    ensures forall i :: i in ms[k].nodes ==> ms[k].nodes[i].nlink >= |Refs(FsAt(ms[k]), i)|
  {
    hide Run, AllSteps, Made, LinksCounted, NothingLost, Refs, Abs, Led, ReplyTo, Fit;
    StoryRuns(calls, ninodes, replies, ms, k);
    LinkCounts(AllSteps(calls, ninodes, ms[..k + 1]), FsAt(ms[k]));
    forall i | i in ms[k].nodes
      ensures ms[k].nodes[i].nlink >= |Refs(FsAt(ms[k]), i)|
    {
      AbsNlink(ms[k].nodes, i);
    }
  }

  /** A made file system: the root directory, which the first process has for its current directory. */
  method MakeFs() returns (f: Files)
    ensures fresh(f) && Ready(f, {}, multiset{}) && FsOf(f.nodes, {}, multiset{}) == Made() && f.refs == multiset{ROOT}
  {
    hide AsMap, Sane, DotsFirst, Proper;
    f := new Files(ROOT);
    MakeDots(f, ROOT, ROOT);
    SaneMade();
    assert Abs(f.nodes)[ROOT] == AbsNode(f.nodes[ROOT]);
    assert Abs(f.nodes) == Made().nodes;
  }

  /** Any sequence of calls on a made file system: every answer and every moment as they should be, until the
      calls end or the first one panics. */
  method Session(calls: seq<Request>, ninodes: nat) returns (f: Files, replies: seq<Reply>, ghost ms: seq<Moment>)
    requires (forall k :: 0 <= k < |calls| ==> Strings(calls[k].call)) && ninodes <= 0x1_0000
    ensures Story(calls, ninodes, replies, ms) && ms != []
    ensures FsAt(ms[0]) == Made() && ms[0].refs == multiset{ROOT} && ms[0].removed == {}
    ensures Ended(replies) || |replies| == |calls|
    ensures !Ended(replies) ==> var m := ms[|ms| - 1]; m == Now(f, m.removed) && Ready(f, m.removed, multiset{})
    ensures var t, es := FsAt(ms[|ms| - 1]), AllSteps(calls, ninodes, ms);
            LinksCounted(t) <==> NothingLost(Made(), es)
  {
    hide Ready, Abs, Run, Strings, Made, LinksCounted, NothingLost, Refs, Story, AllSteps;
    f := MakeFs();
    replies, ms := RunCalls(f, calls, ninodes, {});
    StoryCounts(calls, ninodes, replies, ms, |ms| - 1);
    assert ms[..|ms|] == ms;
  }
}
