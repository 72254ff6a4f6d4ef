/** sys_link(), sys_unlink(), create() and their like (sysfile.c) on directories as bytes: what they do
    to inodes and entries is a run of the system of link counts. */
module SysFile {

  import opened Options
  import opened Blocks
  import opened Dirents
  import opened Namei
  import opened Links

  /** A system call's return value, or the kernel's panic. */
  datatype Ret = Zero | MinusOne | Panic

  // ---------------------------------------------------------------- abstraction

  ghost function AbsNode(x: Node): (a: Inode) {
    Inode(x.typ == DirType, x.nlink, if x.typ == DirType then AsMap(x.content) else map[])
  }

  ghost function Abs(ns: Nodes): (a: map<nat, Inode>)
    ensures a.Keys == ns.Keys
    ensures forall i :: i in ns ==> a[i] == AbsNode(ns[i])
  {
    map i | i in ns :: AbsNode(ns[i])
  }

  ghost function FsOf(ns: Nodes, removed: set<nat>, pending: multiset<nat>): (s: Fs) {
    Fs(Abs(ns), removed, pending)
  }

  lemma {:induction false} AbsUpdate(ns: Nodes, i: nat, x: Node)
    ensures Abs(ns[i := x]) == Abs(ns)[i := AbsNode(x)]
  {
    hide AbsNode;
  }

  // ---------------------------------------------------------------- between calls

  /** An inode number that fits in an entry, and a directory whose entries begin with the dots. */
  ghost predicate ShapedNode(i: nat, x: Node) {
    0 < i < 0x1_0000 && (x.typ == DirType ==> Proper(x.content) && DotsFirst(x.content))
  }

  ghost predicate Shaped(ns: Nodes) {
    forall i :: i in ns ==> ShapedNode(i, ns[i])
  }

  ghost predicate AllThere(ns: Nodes, refs: multiset<nat>) {
    forall i :: i in refs ==> i in ns
  }

  /** What holds between system calls, and every call keeps. Directories that have been removed but are
      still held may be there, with entries of their own and with a parent that is gone. */
  ghost predicate Ready(f: Files, removed: set<nat>, pending: multiset<nat>)
    reads f
  {
    && Shaped(f.nodes) && Held(f.nodes, f.refs, f.loaded) && AllThere(f.nodes, f.refs)
    && Sane(FsOf(f.nodes, removed, pending))
  }

  lemma {:induction false} ShapedAt(ns: Nodes, i: nat)
    requires Shaped(ns) && i in ns
    ensures 0 < i < 0x1_0000 && (ns[i].typ == DirType ==> Proper(ns[i].content) && DotsFirst(ns[i].content))
  {
    assert ShapedNode(i, ns[i]);
  }

  lemma {:induction false} ShapedProper(ns: Nodes)
    requires Shaped(ns)
    ensures DirsProper(ns)
  {
    forall d | IsDirectory(ns, d)
      ensures Proper(ns[d].content)
    {
      ShapedAt(ns, d);
    }
  }

  lemma {:induction false} ShapedUpdate(ns: Nodes, i: nat, x: Node)
    requires Shaped(ns) && ShapedNode(i, x)
    ensures Shaped(ns[i := x])
  {
    hide ShapedNode;
  }

  lemma {:induction false} HeldMore(ns: Nodes, was: multiset<nat>, refs: multiset<nat>, loaded: set<nat>)
    requires Held(ns, was, loaded) && was <= refs
    ensures Held(ns, refs, loaded)
  {
    assert forall i :: i in was ==> i in refs;
  }

  /** The inode freed, if it has no links and no references are left. */
  ghost function Freed(s: Fs, i: nat, refs: multiset<nat>): (t: Fs) {
    if i in s.nodes && s.nodes[i].nlink == 0 && i !in refs then Step(s, Free(i)) else s
  }

  // ---------------------------------------------------------------- link counts

  function Relinked(ns: Nodes, i: nat, n: nat): (r: Nodes)
    requires i in ns
  {
    ns[i := ns[i].(nlink := n)]
  }

  lemma {:induction false} AbsRelinked(ns: Nodes, i: nat, n: nat)
    requires i in ns
    ensures Abs(Relinked(ns, i, n)) == Abs(ns)[i := Abs(ns)[i].(nlink := n)]
  {
    AbsUpdate(ns, i, ns[i].(nlink := n));
    hide AsMap;
  }

  lemma {:induction false} RelinkedShape(ns: Nodes, i: nat, n: nat)
    requires i in ns
    ensures SameDirs(ns, Relinked(ns, i, n))
    ensures Shaped(ns) ==> Shaped(Relinked(ns, i, n))
    ensures forall refs, loaded :: Held(ns, refs, loaded) && n > 0 ==> Held(Relinked(ns, i, n), refs, loaded)
  {
    if Shaped(ns) {
      assert ShapedNode(i, ns[i]);
      ShapedUpdate(ns, i, ns[i].(nlink := n));
    }
  }

  /** Writing an inode's link count (iupdate()). */
  method SetNlink(f: Files, i: nat, n: nat)
    requires i in f.nodes
    modifies f`nodes
    ensures f.nodes == Relinked(old(f.nodes), i, n)
  {
    f.nodes := f.nodes[i := f.nodes[i].(nlink := n)];
  }

  // ---------------------------------------------------------------- link

  /** Where a path starts. */
  function Start(path: Name, cwd: nat): (i: nat) {
    if path != [] && path[0] == SLASH then ROOT else cwd
  }

  /** The last element of a path. */
  ghost function LastName(path: Name): (n: Name) {
    if Elems(path) == [] then [] else Trunc(Elems(path)[|Elems(path)| - 1])
  }

  lemma {:induction false} LastNameOk(path: Name)
    requires IsCString(path)
    ensures IsCString(LastName(path)) && Trunc(LastName(path)) == LastName(path)
  {
    if Elems(path) != [] {
      ElemString(path, |Elems(path)| - 1);
      hide Elems;
      TruncIdem(Elems(path)[|Elems(path)| - 1]);
    }
  }

  lemma {:induction false} ResolvedDir(ns: Nodes, i: nat, es: seq<Name>)
    requires Resolve(ns, i, es, true).Reached?
    ensures IsDirectory(ns, Resolve(ns, i, es, true).i) && es != []
  {
    hide Walk;
  }

  /** The first half of sys_link(): the count goes up before there is an entry. */
  method LinkRaise(f: Files, ip: nat, ghost removed: set<nat>, ghost pending: multiset<nat>) returns (ok: bool)
    requires ip in f.nodes
    modifies f`nodes
    ensures ok <==> Enabled(FsOf(old(f.nodes), removed, pending), LinkStart(ip))
    ensures ok ==> FsOf(f.nodes, removed, pending + multiset{ip}) == Step(FsOf(old(f.nodes), removed, pending), LinkStart(ip))
    ensures ok ==> f.nodes == Relinked(old(f.nodes), ip, old(f.nodes)[ip].nlink + 1)
    ensures !ok ==> f.nodes == old(f.nodes)
    ensures ok <==> old(f.nodes)[ip].typ != DirType
  {
    hide AsMap;
    ok := f.nodes[ip].typ != DirType;
    if ok {
      AbsRelinked(f.nodes, ip, f.nodes[ip].nlink + 1);
      SetNlink(f, ip, f.nodes[ip].nlink + 1);
    }
  }

  /** What dirlink() adds to a directory. */
  ghost predicate EnteredIn(ns: Nodes, r: Nodes, d: nat, name: Name, i: nat) {
    && IsDirectory(ns, d) && d in r && r == ns[d := ns[d].(content := r[d].content)]
    && Proper(r[d].content) && (DotsFirst(ns[d].content) ==> DotsFirst(r[d].content))
    && name !in AsMap(ns[d].content) && AsMap(r[d].content) == AsMap(ns[d].content)[name := i]
  }

  lemma {:induction false} DotsStay(c: seq<Byte>, e: seq<Byte>, at: nat, name: Name)
    requires FirstFree(c, at)
    requires forall l: nat, n: Name :: Names(e, l, n) <==> if l == at then n == name else Names(c, l, n)
    ensures DotsFirst(c) ==> DotsFirst(e)
  {
    if DotsFirst(c) {
      assert Live(c, 0) && Live(c, 1);
      hide Live;
      assert Names(e, 0, DOT) && Names(e, 1, DOTDOT);
    }
  }

  /** dirlink() as the system calls use it. */
  method Enter(f: Files, d: nat, name: Name, inum: nat) returns (r: LinkOutcome)
    requires IsDirectory(f.nodes, d) && Proper(f.nodes[d].content)
    requires IsCString(name) && Trunc(name) == name && 0 < inum < 0x1_0000
    modifies f`nodes, f`refs, f`loaded
    ensures f.refs == old(f.refs) && forall i :: i in f.refs ==> (i in f.loaded <==> i in old(f.loaded))
    ensures r == Exists <==> name in AsMap(old(f.nodes)[d].content)
    ensures r == NoRoom <==> name !in AsMap(old(f.nodes)[d].content) && Packed(old(f.nodes)[d].content)
    ensures r != Linked ==> f.nodes == old(f.nodes)
    ensures r == Linked ==> EnteredIn(old(f.nodes), f.nodes, d, name, inum)
  {
    hide AsMap, Proper, Trunc, IsCString, DotsFirst, Names, FirstFree, Packed;
    ghost var c := f.nodes[d].content;
    ghost var at;
    r, at := f.DirLink(d, name, inum);
    if r == Linked {
      DotsStay(c, f.nodes[d].content, at, name);
    }
  }

  lemma {:induction false} MayFinish(ns: Nodes, ip: nat, dp: Option<nat>, name: Name, removed: set<nat>, pending: multiset<nat>)
    requires ip in ns && ns[ip].nlink > 0 && ip in pending && (dp.Some? ==> IsDirectory(ns, dp.value))
    ensures Enabled(FsOf(ns, removed, pending), LinkFinish(ip, dp, name))
  {
    hide AsMap;
  }

  lemma {:induction false} EnterIs(ns: Nodes, r: Nodes, ip: nat, d: nat, name: Name, removed: set<nat>, pending: multiset<nat>)
    requires EnteredIn(ns, r, d, name, ip)
    requires Enabled(FsOf(ns, removed, pending), LinkFinish(ip, Some(d), name))
    ensures FsOf(r, removed, pending - multiset{ip}) == Step(FsOf(ns, removed, pending), LinkFinish(ip, Some(d), name))
  {
    hide AsMap, Proper, DotsFirst;
    AbsUpdate(ns, d, r[d]);
    assert Abs(ns)[d] == AbsNode(ns[d]);
  }

  /** Types stay, and so does what is in files; only directories are written. */
  ghost predicate FilesKept(ns: Nodes, r: Nodes) {
    forall j :: j in ns && j in r ==> r[j].typ == ns[j].typ && (ns[j].typ != DirType ==> r[j].content == ns[j].content)
  }

  lemma {:induction false} FilesSame(ns: Nodes)
    ensures FilesKept(ns, ns)
  {
  }

  lemma {:induction false} EnteredFiles(ns: Nodes, k: nat, r: Nodes, d: nat, name: Name, i: nat)
    requires i in ns && EnteredIn(Relinked(ns, i, k), r, d, name, i)
    ensures FilesKept(ns, r)
  {
    hide AsMap, Proper, DotsFirst;
  }

  /** What sys_link() returns. */
  ghost function LinkResult(ns: Nodes, ip: Resolved, dp: Resolved, name: Name): (r: Ret) {
    match ip
    case NoType => Panic
    case Missing => MinusOne
    case Reached(i) =>
      if i !in ns then Panic else if ns[i].typ == DirType then MinusOne else EnterResult(ns, dp, name)
  }

  ghost function EnterResult(ns: Nodes, dp: Resolved, name: Name): (r: Ret) {
    match dp
    case NoType => Panic
    case Missing => MinusOne
    case Reached(d) =>
      if d !in ns || name in AsMap(ns[d].content) then MinusOne
      else if Packed(ns[d].content) then Panic else Zero
  }

  /** sys_link() after the count is raised: the lookup of the new path and the entry; the reference to
      the directory is given back. */
  method LinkInto(f: Files, ip: nat, to: Name, cwd: nat, ghost removed: set<nat>, ghost pending: multiset<nat>)
    returns (r: Ret, ghost dp: Resolved)
    requires IsCString(to) && Shaped(f.nodes) && Held(f.nodes, f.refs, f.loaded)
    requires ip in f.nodes && f.nodes[ip].nlink > 0 && ip in pending
    modifies f`nodes, f`refs, f`loaded
    ensures dp == Resolve(old(f.nodes), Start(to, cwd), Elems(to), true)
    ensures r == Zero <==>
              dp.Reached? && dp.i in old(f.nodes) && LastName(to) !in AsMap(old(f.nodes)[dp.i].content) && !Packed(old(f.nodes)[dp.i].content)
    ensures r == EnterResult(old(f.nodes), dp, LastName(to))
    ensures r != Panic ==> f.refs == old(f.refs) && Held(f.nodes, f.refs, f.loaded)
    ensures r == MinusOne ==> f.nodes == old(f.nodes)
    ensures r == Zero ==>
              && dp.Reached? && EnteredIn(old(f.nodes), f.nodes, dp.i, LastName(to), ip)
              && var s := FsOf(old(f.nodes), removed, pending);
                 var e := LinkFinish(ip, Some(dp.i), LastName(to));
                 Enabled(s, e) && FsOf(f.nodes, removed, pending - multiset{ip}) == Step(s, e)
  {
    hide AsMap, Elems, Resolve, Step, IsCString, Proper, Enabled, Packed, EnteredIn, Held, Shaped, Abs, DirsProper, Trunc, DotsFirst;
    ghost var ns := f.nodes;
    ghost var was := f.refs;
    ShapedProper(ns);
    ShapedAt(ns, ip);
    LastNameOk(to);
    var d, n := f.Namex(to, true, cwd, ROOT);
    dp := d;
    if !d.Reached? {
      return if d.NoType? then Panic else MinusOne, dp;
    }
    ResolvedDir(ns, Start(to, cwd), Elems(to));
    ShapedAt(ns, d.i);
    HeldLock(ns, was, f.loaded, d.i);
    var _ := f.Ilock(d.i);
    ghost var loaded := f.loaded;
    var out := Enter(f, d.i, n, ip);
    if out == NoRoom {
      return Panic, dp;
    }
    HeldKept(ns, was, loaded, f.loaded);
    r := MinusOne;
    if out == Linked {
      MayFinish(ns, ip, Some(d.i), n, removed, pending);
      EnterIs(ns, f.nodes, ip, d.i, n, removed, pending);
      HeldEntered(ns, f.nodes, d.i, n, ip, was, f.loaded);
      r := Zero;
    }
    f.Drop(d.i, was);
  }

  lemma {:induction false} HeldKept(ns: Nodes, refs: multiset<nat>, before: set<nat>, after: set<nat>)
    requires Held(ns, refs, before) && forall i :: i in refs && i in before ==> i in after
    ensures Held(ns, refs, after)
  {
  }

  lemma {:induction false} HeldEntered(ns: Nodes, r: Nodes, d: nat, name: Name, i: nat, refs: multiset<nat>, loaded: set<nat>)
    requires Held(ns, refs, loaded) && EnteredIn(ns, r, d, name, i)
    ensures Held(r, refs, loaded)
  {
    hide AsMap, Proper, DotsFirst;
  }

  lemma {:induction false} ShapedEntered(ns: Nodes, r: Nodes, d: nat, name: Name, i: nat)
    requires Shaped(ns) && EnteredIn(ns, r, d, name, i)
    ensures Shaped(r) && r.Keys == ns.Keys
  {
    hide AsMap, Proper, DotsFirst;
    ShapedAt(ns, d);
    ShapedUpdate(ns, d, r[d]);
  }

  /** The end of a sys_link() that fails: the count goes down again. */
  method LinkLower(f: Files, ip: nat, ghost removed: set<nat>, ghost pending: multiset<nat>)
    requires ip in f.nodes && f.nodes[ip].nlink > 0 && ip in pending && ip in f.refs
    modifies f`nodes, f`loaded
    ensures f.nodes == Relinked(old(f.nodes), ip, old(f.nodes)[ip].nlink - 1) && f.loaded == old(f.loaded) + {ip}
    ensures var s := FsOf(old(f.nodes), removed, pending);
            var e := LinkFinish(ip, None, []);
            Enabled(s, e) && FsOf(f.nodes, removed, pending - multiset{ip}) == Step(s, e)
  {
    hide AsMap;
    AbsRelinked(f.nodes, ip, f.nodes[ip].nlink - 1);
    var _ := f.Ilock(ip);
    SetNlink(f, ip, f.nodes[ip].nlink - 1);
  }

  /** `t` is `s` with a link to `ip` made in `dp`. */
  ghost predicate LinkedBy(s: Fs, t: Fs, ip: nat, dp: nat, name: Name) {
    && Enabled(s, LinkStart(ip))
    && var u := Step(s, LinkStart(ip));
    && Enabled(u, LinkFinish(ip, Some(dp), name)) && name !in u.nodes[dp].ents
    && t == Step(u, LinkFinish(ip, Some(dp), name))
  }

  lemma {:induction false} LinkedIs(s: Fs, ns: Nodes, r: Nodes, ip: nat, d: nat, name: Name, removed: set<nat>, pending: multiset<nat>)
    requires Enabled(s, LinkStart(ip)) && Step(s, LinkStart(ip)) == FsOf(ns, removed, pending + multiset{ip})
    requires EnteredIn(ns, r, d, name, ip)
    requires var e := LinkFinish(ip, Some(d), name);
             var u := FsOf(ns, removed, pending + multiset{ip});
             Enabled(u, e) && FsOf(r, removed, pending + multiset{ip} - multiset{ip}) == Step(u, e)
    ensures LinkedBy(s, FsOf(r, removed, pending), ip, d, name)
  {
    hide AsMap, Proper, DotsFirst, Step, Enabled;
    assert pending + multiset{ip} - multiset{ip} == pending;
    assert Abs(ns)[d] == AbsNode(ns[d]);
  }

  lemma {:induction false} LinkedSane(s: Fs, t: Fs, ip: nat, dp: nat, name: Name)
    requires Sane(s) && LinkedBy(s, t, ip, dp, name)
    ensures Sane(t)
  {
    hide Sane, Step, Enabled;
    SaneStep(s, LinkStart(ip));
    SaneStep(Step(s, LinkStart(ip)), LinkFinish(ip, Some(dp), name));
  }

  lemma {:induction false} HeldBack(ns: Nodes, ip: nat, was: multiset<nat>, before: set<nat>, after: set<nat>)
    requires ip in ns && Held(ns, was, before)
    requires Held(Relinked(ns, ip, ns[ip].nlink + 1), was + multiset{ip}, after)
    ensures Held(ns, was, after + {ip})
  {
    var m := Relinked(ns, ip, ns[ip].nlink + 1);
    assert forall j :: j in ns && j != ip ==> j in m && m[j] == ns[j];
  }

  lemma {:induction false} HeldLinked(ns: Nodes, r: Nodes, ip: nat, d: nat, name: Name, was: multiset<nat>, before: set<nat>, after: set<nat>)
    requires ip in ns && Held(ns, was, before) && EnteredIn(Relinked(ns, ip, ns[ip].nlink + 1), r, d, name, ip)
    requires Held(r, was + multiset{ip}, after)
    ensures Held(r, was, after)
  {
    hide AsMap, Proper, DotsFirst;
  }

  /** sys_link(): a link raised and entered when it succeeds, nothing when it fails, and exactly when
      it does which; all references are given back. */
  method SysLink(f: Files, from: Name, to: Name, cwd: nat, ghost removed: set<nat>, ghost pending: multiset<nat>)
    returns (r: Ret, ghost ip: Resolved, ghost dp: Resolved)
    requires IsCString(from) && IsCString(to) && Ready(f, removed, pending)
    modifies f`nodes, f`refs, f`loaded
    ensures ip == Resolve(old(f.nodes), Start(from, cwd), Elems(from), false)
    ensures dp == Resolve(old(f.nodes), Start(to, cwd), Elems(to), true)
    ensures r == Zero <==>
              && ip.Reached? && ip.i in old(f.nodes) && old(f.nodes)[ip.i].typ != DirType
              && dp.Reached? && dp.i in old(f.nodes) && LastName(to) !in AsMap(old(f.nodes)[dp.i].content)
              && !Packed(old(f.nodes)[dp.i].content)
    ensures r == LinkResult(old(f.nodes), ip, dp, LastName(to))
    ensures r != Panic ==> f.refs == old(f.refs) && Ready(f, removed, pending) && FilesKept(old(f.nodes), f.nodes)
    ensures r == MinusOne ==> f.nodes == old(f.nodes)
    ensures r == Zero ==>
              && ip.Reached? && dp.Reached?
              && LinkedBy(FsOf(old(f.nodes), removed, pending), FsOf(f.nodes, removed, pending), ip.i, dp.i, LastName(to))
  {
    hide AsMap, Elems, Resolve, Trunc, Step, Enabled, IsCString, LinkedBy, Abs, Relinked, Held, Shaped, Sane, DirsProper, EnteredIn, LastName, EnterResult;
    ghost var was := f.refs;
    ghost var ns := f.nodes;
    ShapedProper(ns);
    dp := Resolve(ns, Start(to, cwd), Elems(to), true);
    var i, _ := f.Namex(from, false, cwd, ROOT);
    ip := i;
    if !i.Reached? {
      return if i.NoType? then Panic else MinusOne, ip, dp;
    }
    HeldLock(ns, was, f.loaded, i.i);
    var there := f.Ilock(i.i);
    if !there {
      return Panic, ip, dp;
    }
    var ok := LinkRaise(f, i.i, removed, pending);
    if !ok {
      f.Drop(i.i, was);
      return MinusOne, ip, dp;
    }
    r := LinkRest(f, i.i, to, cwd, ns, was, removed, pending);
    assert r == Zero <==>
             dp.Reached? && dp.i in ns && LastName(to) !in AsMap(ns[dp.i].content) && !Packed(ns[dp.i].content) by {
      EnterCases(ns, dp, LastName(to));
    }
  }

  lemma {:induction false} EnterCases(ns: Nodes, dp: Resolved, name: Name)
    ensures EnterResult(ns, dp, name) == Zero <==> dp.Reached? && dp.i in ns && name !in AsMap(ns[dp.i].content) && !Packed(ns[dp.i].content)
  {
    hide AsMap, Packed;
  }

  /** sys_link() from the raised count on. */
  method LinkRest(f: Files, ip: nat, to: Name, cwd: nat, ghost ns: Nodes, ghost was: multiset<nat>, ghost removed: set<nat>, ghost pending: multiset<nat>)
    returns (r: Ret)
    requires IsCString(to) && ip in ns && f.nodes == Relinked(ns, ip, ns[ip].nlink + 1) && f.refs == was + multiset{ip}
    requires Shaped(ns) && Held(ns, was, f.loaded) && AllThere(ns, was) && Sane(FsOf(ns, removed, pending))
    requires Enabled(FsOf(ns, removed, pending), LinkStart(ip))
    requires FsOf(f.nodes, removed, pending + multiset{ip}) == Step(FsOf(ns, removed, pending), LinkStart(ip))
    modifies f`nodes, f`refs, f`loaded
    ensures r == EnterResult(ns, Resolve(ns, Start(to, cwd), Elems(to), true), LastName(to))
    ensures r != Panic ==> f.refs == was && Ready(f, removed, pending) && FilesKept(ns, f.nodes)
    ensures r == MinusOne ==> f.nodes == ns
    ensures r == Zero ==>
              var dp := Resolve(ns, Start(to, cwd), Elems(to), true);
              dp.Reached? && LinkedBy(FsOf(ns, removed, pending), FsOf(f.nodes, removed, pending), ip, dp.i, LastName(to))
  {
    hide AsMap, Elems, Resolve, Trunc, Step, Enabled, IsCString, LinkedBy, Abs, Relinked, Held, Shaped, Sane, DirsProper, EnteredIn, LastName, EnterResult, FilesKept, Packed;
    FilesSame(ns);
    ghost var s := FsOf(ns, removed, pending);
    ghost var m := f.nodes;
    ghost var before := f.loaded;
    RaisedIs(ns, ip);
    RelinkedShape(ns, ip, ns[ip].nlink + 1);
    HeldMore(m, was, f.refs, f.loaded);
    ResolveSame(ns, m, Start(to, cwd), Elems(to), true);
    ghost var dp;
    r, dp := LinkInto(f, ip, to, cwd, removed, pending + multiset{ip});
    EnterSame(ns, m, dp, LastName(to));
    if r == Panic {
      return;
    }
    if r == MinusOne {
      HeldBack(ns, ip, was, before, f.loaded);
      LinkLower(f, ip, removed, pending + multiset{ip});
      RaisedBack(ns, ip);
    } else {
      LinkSucceeded(ns, f.nodes, ip, dp.i, LastName(to), was, before, f.loaded, removed, pending);
    }
    f.Drop(ip, was);
  }

  lemma {:induction false} LinkSucceeded(ns: Nodes, r: Nodes, ip: nat, d: nat, name: Name, was: multiset<nat>, before: set<nat>, after: set<nat>,
                                        removed: set<nat>, pending: multiset<nat>)
    requires Shaped(ns) && Held(ns, was, before) && AllThere(ns, was) && Sane(FsOf(ns, removed, pending)) && ip in ns
    requires var m := Relinked(ns, ip, ns[ip].nlink + 1);
             && Shaped(m) && EnteredIn(m, r, d, name, ip) && Held(r, was + multiset{ip}, after)
             && Enabled(FsOf(ns, removed, pending), LinkStart(ip))
             && FsOf(m, removed, pending + multiset{ip}) == Step(FsOf(ns, removed, pending), LinkStart(ip))
             && var e, u := LinkFinish(ip, Some(d), name), FsOf(m, removed, pending + multiset{ip});
                Enabled(u, e) && FsOf(r, removed, pending + multiset{ip} - multiset{ip}) == Step(u, e)
    ensures LinkedBy(FsOf(ns, removed, pending), FsOf(r, removed, pending), ip, d, name) && Sane(FsOf(r, removed, pending))
    ensures Held(r, was, after) && Shaped(r) && AllThere(r, was) && FilesKept(ns, r)
  {
    hide AsMap, Step, Enabled, LinkedBy, Abs, Relinked, Held, Shaped, Sane, EnteredIn, FilesKept;
    var s, m := FsOf(ns, removed, pending), Relinked(ns, ip, ns[ip].nlink + 1);
    RaisedIs(ns, ip);
    LinkedIs(s, m, r, ip, d, name, removed, pending);
    LinkedSane(s, FsOf(r, removed, pending), ip, d, name);
    HeldLinked(ns, r, ip, d, name, was, before, after);
    ShapedEntered(m, r, d, name, ip);
    EnteredFiles(ns, ns[ip].nlink + 1, r, d, name, ip);
  }

  lemma {:induction false} RaisedIs(ns: Nodes, i: nat)
    requires i in ns
    ensures var m := Relinked(ns, i, ns[i].nlink + 1); m.Keys == ns.Keys && m[i].nlink == ns[i].nlink + 1
  {
  }

  lemma {:induction false} RaisedBack(ns: Nodes, i: nat)
    requires i in ns
    ensures var m := Relinked(ns, i, ns[i].nlink + 1); i in m && Relinked(m, i, m[i].nlink - 1) == ns
  {
  }

  lemma {:induction false} EnterSame(ns: Nodes, ms: Nodes, dp: Resolved, name: Name)
    requires SameDirs(ns, ms)
    ensures EnterResult(ms, dp, name) == EnterResult(ns, dp, name)
  {
    hide AsMap, Packed;
  }

  // ---------------------------------------------------------------- unlink

  /** A successful sys_unlink(): the entry goes; then the directory, and after it the inode, may be freed
      with their last references. */
  ghost predicate UnlinkedBy(s: Fs, t: Fs, d: nat, name: Name, refs: multiset<nat>) {
    && Enabled(s, Unlink(d, name))
    && t == Freed(Freed(Step(s, Unlink(d, name)), d, refs), s.nodes[d].ents[name], refs)
  }

  function FreedNodes(ns: Nodes, i: nat, refs: multiset<nat>): (r: Nodes) {
    if i in ns && ns[i].nlink == 0 && i !in refs then ns - {i} else ns
  }

  lemma {:induction false} FreedIs(ns: Nodes, i: nat, refs: multiset<nat>, removed: set<nat>, pending: multiset<nat>)
    ensures var t := Freed(FsOf(ns, removed, pending), i, refs); FsOf(FreedNodes(ns, i, refs), t.removed, pending) == t
  {
    AbsLess(ns, i);
    if i in ns {
      AbsNlink(ns, i);
    }
    hide Abs;
  }

  lemma {:induction false} FreedSane(s: Fs, i: nat, refs: multiset<nat>)
    requires Sane(s)
    ensures Sane(Freed(s, i, refs)) && Freed(s, i, refs).pending == s.pending
  {
    hide Sane;
    if i in s.nodes && s.nodes[i].nlink == 0 && i !in refs {
      SaneStep(s, Free(i));
    }
  }

  /** The inodes after the entry is gone and the counts are lowered. */
  function UnlinkedNodes(ns: Nodes, d: nat, i: nat, content: seq<Byte>): (r: Nodes)
    requires d in ns && i in ns
  {
    var m := ns[d := ns[d].(content := content)];
    var l := if m[i].typ == DirType then Relinked(m, d, Dec(m[d].nlink)) else m;
    Relinked(l, i, Dec(l[i].nlink))
  }

  lemma {:induction false} UnlinkIs(ns: Nodes, d: nat, i: nat, content: seq<Byte>, name: Name, removed: set<nat>, pending: multiset<nat>)
    requires IsDirectory(ns, d) && i in ns && d != i
    requires name in AsMap(ns[d].content) && AsMap(ns[d].content)[name] == i
    requires AsMap(content) == AsMap(ns[d].content) - {name}
    requires Enabled(FsOf(ns, removed, pending), Unlink(d, name))
    ensures var u := Step(FsOf(ns, removed, pending), Unlink(d, name));
            FsOf(UnlinkedNodes(ns, d, i, content), u.removed, pending) == u
  {
    hide AsMap, Abs, AbsNode;
    var s := FsOf(ns, removed, pending);
    var x := ns[d].(content := content);
    var m := ns[d := x];
    AbsUpdate(ns, d, x);
    AbsErased(ns, d, content, name);
    AbsType(ns, i);
    if m[i].typ == DirType {
      AbsRelinked(m, d, Dec(m[d].nlink));
      var l := Relinked(m, d, Dec(m[d].nlink));
      AbsRelinked(l, i, Dec(l[i].nlink));
      AbsNlink(m, d);
      AbsNlink(l, i);
    } else {
      AbsRelinked(m, i, Dec(m[i].nlink));
      AbsNlink(m, i);
    }
    AbsNlink(ns, i);
    AbsNlink(ns, d);
  }

  lemma {:induction false} AbsErased(ns: Nodes, d: nat, content: seq<Byte>, name: Name)
    requires IsDirectory(ns, d) && AsMap(content) == AsMap(ns[d].content) - {name}
    ensures AbsNode(ns[d].(content := content)) == Abs(ns)[d].(ents := Abs(ns)[d].ents - {name})
    ensures Abs(ns)[d].ents == AsMap(ns[d].content)
  {
    hide AsMap;
    assert Abs(ns)[d] == AbsNode(ns[d]);
  }

  lemma {:induction false} AbsType(ns: Nodes, i: nat)
    requires i in ns
    ensures Abs(ns)[i].isDir <==> ns[i].typ == DirType
  {
    hide AsMap;
    assert Abs(ns)[i] == AbsNode(ns[i]);
  }

  lemma {:induction false} MayUnlink(ns: Nodes, d: nat, name: Name, i: nat, removed: set<nat>, pending: multiset<nat>)
    requires IsDirectory(ns, d) && i in ns && name in AsMap(ns[d].content) && AsMap(ns[d].content)[name] == i
    ensures Enabled(FsOf(ns, removed, pending), Unlink(d, name)) <==>
            !Dots(name) && (ns[i].typ == DirType ==> AsMap(ns[i].content).Keys == {DOT, DOTDOT})
    ensures FsOf(ns, removed, pending).nodes[d].ents[name] == i
  {
    hide AsMap;
    assert Abs(ns)[d] == AbsNode(ns[d]) && Abs(ns)[i] == AbsNode(ns[i]);
  }

  /** An unlinked inode is not its directory; it has a link to lose, and the directory has one for it
      if it is a directory. */
  lemma {:induction false} UnlinkFacts(s: Fs, d: nat, name: Name)
    requires Sane(s) && Enabled(s, Unlink(d, name))
    ensures var i := s.nodes[d].ents[name];
            i != d && i in s.nodes && s.nodes[i].nlink >= 1 && (s.nodes[i].isDir ==> s.nodes[d].nlink >= 1)
  {
    UnlinkNeverPanics(s, d, name);
    hide Attached, Closed, RemovedDirs, Refs;
    var i := s.nodes[d].ents[name];
    if s.nodes[i].isDir {
      UnlinkedDir(s, d, name);
      RefsSome(s, d, i, DOTDOT);
      assert Excess(s, d) >= 0;
    }
  }

  /** The directory after its entry is gone and, for a directory in it, its count lowered. */
  function LoweredDir(ns: Nodes, d: nat, i: nat, content: seq<Byte>): (r: Nodes)
    requires d in ns && i in ns
  {
    var m := ns[d := ns[d].(content := content)];
    if m[i].typ == DirType then Relinked(m, d, Dec(m[d].nlink)) else m
  }

  lemma {:induction false} LowerBoth(ns: Nodes, d: nat, i: nat, content: seq<Byte>, refs: multiset<nat>)
    requires d in ns && i in ns && d != i
    ensures var l := FreedNodes(LoweredDir(ns, d, i, content), d, refs);
            && i in l && l[i] == ns[i]
            && Relinked(l, i, Dec(l[i].nlink)) == FreedNodes(UnlinkedNodes(ns, d, i, content), d, refs)
  {
  }

  /** sys_unlink(): the entry is cleared, the directory's count lowered and its reference given back. */
  method UnlinkInDir(f: Files, d: nat, name: Name, ip: nat, off: nat, ghost was: multiset<nat>) returns (ghost content: seq<Byte>)
    requires IsDirectory(f.nodes, d) && Proper(f.nodes[d].content) && ip in f.nodes && DotsFirst(f.nodes[d].content) && ip != d
    requires Names(f.nodes[d].content, off, name) && !Dots(name) && (f.nodes[ip].typ == DirType ==> f.nodes[d].nlink >= 1)
    requires f.refs == was + multiset{d} + multiset{ip} && d in f.loaded && ip in f.loaded
    modifies f`nodes, f`refs, f`loaded
    ensures f.refs == was + multiset{ip} && ip in f.loaded
    ensures f.nodes == FreedNodes(LoweredDir(old(f.nodes), d, ip, content), d, was)
    ensures forall j :: j in old(f.loaded) && j in f.nodes ==> j in f.loaded
    ensures Proper(content) && DotsFirst(content) && AsMap(content) == AsMap(old(f.nodes)[d].content) - {name}
  {
    hide AsMap, Proper, DotsFirst, Names;
    NotDotsAt(f.nodes[d].content, off, name);
    f.EraseEntry(d, off);
    content := f.nodes[d].content;
    if f.nodes[ip].typ == DirType {
      SetNlink(f, d, f.nodes[d].nlink - 1);
    }
    f.Iput(d);
    assert f.refs == was + multiset{ip};
  }

  /** The part of sys_unlink() that changes something. */
  method UnlinkEntry(f: Files, d: nat, name: Name, ip: nat, off: nat, ghost was: multiset<nat>) returns (ghost content: seq<Byte>)
    requires IsDirectory(f.nodes, d) && Proper(f.nodes[d].content) && ip in f.nodes && DotsFirst(f.nodes[d].content) && ip != d
    requires Names(f.nodes[d].content, off, name) && !Dots(name)
    requires f.nodes[ip].nlink >= 1 && (f.nodes[ip].typ == DirType ==> f.nodes[d].nlink >= 1)
    requires f.refs == was + multiset{d} + multiset{ip} && d in f.loaded && ip in f.loaded
    modifies f`nodes, f`refs, f`loaded
    ensures f.refs == was
    ensures f.nodes == FreedNodes(FreedNodes(UnlinkedNodes(old(f.nodes), d, ip, content), d, was), ip, was)
    ensures forall j :: j in old(f.loaded) && j in f.nodes ==> j in f.loaded
    ensures Proper(content) && DotsFirst(content) && AsMap(content) == AsMap(old(f.nodes)[d].content) - {name}
  {
    hide AsMap, Proper, DotsFirst, Names, UnlinkedNodes, LoweredDir, Dots;
    ghost var ns := f.nodes;
    content := UnlinkInDir(f, d, name, ip, off, was);
    LowerBoth(ns, d, ip, content, was);
    ghost var m := FreedNodes(UnlinkedNodes(ns, d, ip, content), d, was);
    hide FreedNodes;
    SetNlink(f, ip, f.nodes[ip].nlink - 1);
    f.Iput(ip);
    PutIs(m, f.nodes, ip, was);
  }

  lemma {:induction false} PutIs(ns: Nodes, r: Nodes, i: nat, was: multiset<nat>)
    requires r == if i in ns && ns[i].nlink == 0 && (was + multiset{i})[i] == 1 then ns - {i} else ns
    ensures r == FreedNodes(ns, i, was)
  {
  }

  lemma {:induction false} NotDotsAt(c: seq<Byte>, off: nat, name: Name)
    requires DotsFirst(c) && Names(c, off, name) && !Dots(name)
    ensures off >= 2 && Live(c, off) && NameAt(c, off) == name
  {
  }

  lemma {:induction false} AbsNlink(m: Nodes, i: nat)
    requires i in m
    ensures Abs(m)[i].nlink == m[i].nlink
  {
    assert Abs(m)[i] == AbsNode(m[i]);
  }

  lemma {:induction false} AbsLess(m: Nodes, i: nat)
    ensures Abs(m - {i}) == Abs(m) - {i}
  {
    hide AbsNode;
  }

  lemma {:induction false} UnlinkHeld(ns: Nodes, r: Nodes, d: nat, i: nat, content: seq<Byte>, refs: multiset<nat>, before: set<nat>, after: set<nat>)
    requires d in ns && i in ns && r == FreedNodes(FreedNodes(UnlinkedNodes(ns, d, i, content), d, refs), i, refs)
    requires Held(ns, refs, before) && d in before && i in before && forall j :: j in before && j in r ==> j in after
    requires AllThere(ns, refs)
    ensures Held(r, refs, after) && AllThere(r, refs)
  {
  }

  lemma {:induction false} UnlinkShaped(ns: Nodes, r: Nodes, d: nat, i: nat, content: seq<Byte>, refs: multiset<nat>)
    requires d in ns && i in ns && r == FreedNodes(FreedNodes(UnlinkedNodes(ns, d, i, content), d, refs), i, refs)
    requires Shaped(ns) && Proper(content) && DotsFirst(content)
    ensures Shaped(r)
  {
    hide Proper, DotsFirst;
    assert ShapedNode(d, ns[d]) && ShapedNode(i, ns[i]);
    hide Shaped;
    var m := ns[d := ns[d].(content := content)];
    ShapedUpdate(ns, d, m[d]);
    var l := if m[i].typ == DirType then Relinked(m, d, Dec(m[d].nlink)) else m;
    assert Shaped(l) by { ShapedUpdate(m, d, l[d]); }
    var u := UnlinkedNodes(ns, d, i, content);
    assert ShapedNode(i, l[i]) by { if i == d { assert ShapedNode(d, m[d]); } }
    ShapedUpdate(l, i, u[i]);
    ShapedLess(u, FreedNodes(u, d, refs), d);
    ShapedLess(FreedNodes(u, d, refs), r, i);
  }

  lemma {:induction false} ShapedLess(ns: Nodes, r: Nodes, i: nat)
    requires Shaped(ns) && (r == ns || r == ns - {i})
    ensures Shaped(r)
  {
    hide ShapedNode;
  }

  /** What is unlinked from the bytes is unlinked from the system. */
  lemma {:induction false} UnlinkedIs(ns: Nodes, r: Nodes, d: nat, i: nat, content: seq<Byte>, name: Name, refs: multiset<nat>, removed: set<nat>, pending: multiset<nat>)
    returns (gone: set<nat>)
    requires IsDirectory(ns, d) && i in ns && d != i && Sane(FsOf(ns, removed, pending))
    requires name in AsMap(ns[d].content) && AsMap(ns[d].content)[name] == i
    requires AsMap(content) == AsMap(ns[d].content) - {name}
    requires Enabled(FsOf(ns, removed, pending), Unlink(d, name))
    requires r == FreedNodes(FreedNodes(UnlinkedNodes(ns, d, i, content), d, refs), i, refs)
    ensures UnlinkedBy(FsOf(ns, removed, pending), FsOf(r, gone, pending), d, name, refs) && Sane(FsOf(r, gone, pending))
  {
    hide AsMap, Abs, Sane, Step, UnlinkedNodes, Enabled, FreedNodes, Freed;
    var s := FsOf(ns, removed, pending);
    var u := Step(s, Unlink(d, name));
    MayUnlink(ns, d, name, i, removed, pending);
    UnlinkIs(ns, d, i, content, name, removed, pending);
    SaneStep(s, Unlink(d, name));
    var m := UnlinkedNodes(ns, d, i, content);
    FreedIs(m, d, refs, u.removed, pending);
    FreedSane(u, d, refs);
    var v := Freed(u, d, refs);
    FreedIs(FreedNodes(m, d, refs), i, refs, v.removed, pending);
    FreedSane(v, i, refs);
    gone := Freed(v, i, refs).removed;
  }

  /** A name other than the dots exists. */
  lemma {:induction false} NameThere(ns: Nodes, d: nat, name: Name, removed: set<nat>, pending: multiset<nat>)
    requires Sane(FsOf(ns, removed, pending)) && IsDirectory(ns, d) && name in AsMap(ns[d].content)
    requires !(name == DOTDOT && d in removed)
    ensures AsMap(ns[d].content)[name] in ns
  {
    hide AsMap, Tree, EnoughLinks, Attached;
    var s := FsOf(ns, removed, pending);
    assert Abs(ns)[d] == AbsNode(ns[d]);
    assert NodeOk(s, d);
    assert name != DOT ==> Counts(s, d, name, AsMap(ns[d].content)[name]);
  }

  /** What sys_unlink() returns. */
  ghost function UnlinkResult(s: Fs, dp: Resolved, name: Name): (r: Ret) {
    match dp
    case NoType => Panic
    case Missing => MinusOne
    case Reached(d) => if Enabled(s, Unlink(d, name)) then Zero else MinusOne
  }

  /** sys_unlink(): a step of the system when it succeeds, which it does exactly when that step is
      possible, followed by the freeing of what was in use for the last time; nothing when it fails. */
  method SysUnlink(f: Files, path: Name, cwd: nat, ghost removed: set<nat>, ghost pending: multiset<nat>)
    returns (r: Ret, ghost dp: Resolved, ghost gone: set<nat>)
    requires IsCString(path) && Ready(f, removed, pending)
    modifies f`nodes, f`refs, f`loaded
    ensures dp == Resolve(old(f.nodes), Start(path, cwd), Elems(path), true)
    ensures r == UnlinkResult(FsOf(old(f.nodes), removed, pending), dp, LastName(path))
    ensures r != Panic ==> f.refs == old(f.refs) && Ready(f, gone, pending) && FilesKept(old(f.nodes), f.nodes)
    ensures r == MinusOne ==> f.nodes == old(f.nodes) && gone == removed
    ensures r == Zero ==>
              && dp.Reached?
              && UnlinkedBy(FsOf(old(f.nodes), removed, pending), FsOf(f.nodes, gone, pending), dp.i, LastName(path), old(f.refs))
  {
    hide AsMap, DirsProper, Elems, Resolve, Trunc, Step, Enabled, IsCString, Sane, UnlinkedBy, Proper, Names, DotsFirst, Abs, Shaped, Held, LastName;
    ghost var was := f.refs;
    ghost var ns := f.nodes;
    gone := removed;
    ShapedProper(ns);
    LastNameOk(path);
    var d, n := f.Namex(path, true, cwd, ROOT);
    dp := d;
    if !d.Reached? {
      return if d.NoType? then Panic else MinusOne, dp, gone;
    }
    ResolvedDir(ns, Start(path, cwd), Elems(path));
    LastNameIs(path);
    ShapedAt(ns, d.i);
    HeldLock(ns, was, f.loaded, d.i);
    var _ := f.Ilock(d.i);
    if n == DOT || n == DOTDOT {
      NeverDots(FsOf(ns, removed, pending), d.i, n);
      f.Drop(d.i, was);
      return MinusOne, dp, gone;
    }
    ghost var loaded := f.loaded;
    var found := f.DirLookup(d.i, n);
    if found.None? {
      NotThere(ns, d.i, n, removed, pending);
      f.Drop(d.i, was);
      return MinusOne, dp, gone;
    }
    HeldGet(ns, was, loaded, found.value.inum);
    r, gone := UnlinkFound(f, d.i, n, found.value.inum, found.value.off, was, removed, pending);
  }

  lemma {:induction false} LastNameIs(path: Name)
    requires Elems(path) != []
    ensures LastName(path) == Trunc(Elems(path)[|Elems(path)| - 1])
  {
  }

  /** sys_unlink() from the entry found on. */
  method UnlinkFound(f: Files, d: nat, name: Name, ip: nat, off: nat, ghost was: multiset<nat>, ghost removed: set<nat>, ghost pending: multiset<nat>)
    returns (r: Ret, ghost gone: set<nat>)
    requires Shaped(f.nodes) && Held(f.nodes, was, f.loaded) && AllThere(f.nodes, was) && Sane(FsOf(f.nodes, removed, pending))
    requires IsDirectory(f.nodes, d) && !Dots(name) && Names(f.nodes[d].content, off, name)
    requires name in AsMap(f.nodes[d].content) && AsMap(f.nodes[d].content)[name] == ip
    requires f.refs == was + multiset{d} + multiset{ip} && d in f.loaded
    modifies f`nodes, f`refs, f`loaded
    ensures r == if Enabled(FsOf(old(f.nodes), removed, pending), Unlink(d, name)) then Zero else MinusOne
    ensures f.refs == was && Ready(f, gone, pending) && FilesKept(old(f.nodes), f.nodes)
    ensures r == MinusOne ==> f.nodes == old(f.nodes) && gone == removed
    ensures r == Zero ==> UnlinkedBy(FsOf(old(f.nodes), removed, pending), FsOf(f.nodes, gone, pending), d, name, was)
  {
    hide AsMap, Step, Enabled, Sane, UnlinkedBy, Proper, Names, DotsFirst, Abs, Shaped, Held, FreedNodes, UnlinkedNodes, Dots;
    ghost var ns := f.nodes;
    gone := removed;
    NotDotted(name);
    NameThere(ns, d, name, removed, pending);
    HeldLock(ns, was, f.loaded, ip);
    var _ := f.Ilock(ip);
    ghost var loaded := f.loaded;
    MayUnlink(ns, d, name, ip, removed, pending);
    ShapedAt(ns, d);
    if f.nodes[ip].typ == DirType {
      ShapedAt(ns, ip);
      var empty := f.IsDirEmpty(ip);
      if !empty {
        assert f.refs == was + multiset{ip} + multiset{d};
        f.DropFor(ip, d, was);
        f.Drop(d, was);
        return MinusOne, gone;
      }
    }
    UnlinkFacts(FsOf(ns, removed, pending), d, name);
    AbsNlink(ns, ip);
    AbsNlink(ns, d);
    AbsType(ns, ip);
    ghost var c := UnlinkEntry(f, d, name, ip, off, was);
    UnlinkHeld(ns, f.nodes, d, ip, c, was, loaded, f.loaded);
    UnlinkShaped(ns, f.nodes, d, ip, c, was);
    gone := UnlinkedIs(ns, f.nodes, d, ip, c, name, was, removed, pending);
    UnlinkedFiles(ns, f.nodes, d, ip, c, was);
    r := Zero;
  }

  lemma {:induction false} UnlinkedFiles(ns: Nodes, r: Nodes, d: nat, i: nat, content: seq<Byte>, refs: multiset<nat>)
    requires IsDirectory(ns, d) && i in ns && r == FreedNodes(FreedNodes(UnlinkedNodes(ns, d, i, content), d, refs), i, refs)
    ensures FilesKept(ns, r)
  {
  }

  lemma {:induction false} NotDotted(name: Name)
    ensures !Dots(name) <==> name != DOT && name != DOTDOT
  {
  }

  lemma {:induction false} NeverDots(s: Fs, d: nat, name: Name)
    requires Dots(name)
    ensures !Enabled(s, Unlink(d, name))
  {
  }

  lemma {:induction false} NotThere(ns: Nodes, d: nat, name: Name, removed: set<nat>, pending: multiset<nat>)
    requires IsDirectory(ns, d) && name !in AsMap(ns[d].content)
    ensures !Enabled(FsOf(ns, removed, pending), Unlink(d, name))
  {
    hide AsMap;
    assert Abs(ns)[d] == AbsNode(ns[d]);
  }

  // ---------------------------------------------------------------- create

  /** What create() returns: an inode that was there, a new one, none, or a panic. */
  datatype Created = Old(i: nat) | New(i: nat) | Nothing | Panicked

  lemma {:induction false} AsMapEmpty()
    ensures Proper([]) && AsMap([]) == map[]
  {
    var none: seq<Byte> := [];
    forall n
      ensures n !in Keys(none)
    {
      KeysAre(none, n);
    }
  }

  lemma {:induction false} DotNames()
    ensures IsCString(DOT) && IsCString(DOTDOT) && Trunc(DOT) == DOT && Trunc(DOTDOT) == DOTDOT && DOT != DOTDOT
  {
  }

  /** "." is all there is in the directory. */
  ghost predicate OnlyDot(c: seq<Byte>, i: nat) {
    && Proper(c) && |c| <= DESIZE && AsMap(c) == map[DOT := i]
    && forall l: nat, n: Name :: Names(c, l, n) <==> l == 0 && n == DOT
  }

  method FirstEntry(f: Files, i: nat)
    requires i in f.nodes && f.nodes[i] == Node(DirType, 1, []) && 0 < i < 0x1_0000
    modifies f`nodes, f`refs, f`loaded
    ensures f.refs == old(f.refs) && i in f.nodes && forall j :: j in f.refs ==> (j in f.loaded <==> j in old(f.loaded))
    ensures f.nodes == old(f.nodes)[i := Node(DirType, 1, f.nodes[i].content)] && OnlyDot(f.nodes[i].content, i)
  {
    hide AsMap, Proper, Trunc, IsCString, Names;
    AsMapEmpty();
    DotNames();
    ghost var c := f.nodes[i].content;
    var r, k := f.DirLink(i, DOT, i);
    assert r == Linked;
    FirstSlot(c, k);
  }

  lemma {:induction false} FirstSlot(c: seq<Byte>, k: nat)
    requires c == [] && FirstFree(c, k)
    ensures k == 0 && forall l: nat, n: Name :: !Names(c, l, n)
  {
    assert !Live(c, 0);
  }

  lemma {:induction false} SecondSlot(c: seq<Byte>, i: nat, k: nat)
    requires FirstFree(c, k) && OnlyDot(c, i)
    ensures k == 1
  {
    assert Names(c, 0, DOT) && !Live(c, 1);
  }

  lemma {:induction false} OnlyDotIs(c: seq<Byte>, i: nat)
    requires OnlyDot(c, i)
    ensures Proper(c) && |c| <= DESIZE && AsMap(c) == map[DOT := i] && Names(c, 0, DOT)
  {
    hide AsMap;
  }

  /** A new directory's first two entries. */
  method MakeDots(f: Files, i: nat, d: nat)
    requires i in f.nodes && f.nodes[i] == Node(DirType, 1, []) && 0 < i < 0x1_0000 && 0 < d < 0x1_0000
    modifies f`nodes, f`refs, f`loaded
    ensures f.refs == old(f.refs) && forall j :: j in f.refs ==> (j in f.loaded <==> j in old(f.loaded))
    ensures i in f.nodes && f.nodes == old(f.nodes)[i := Node(DirType, 1, f.nodes[i].content)]
    ensures Proper(f.nodes[i].content) && DotsFirst(f.nodes[i].content)
    ensures AsMap(f.nodes[i].content) == map[DOT := i, DOTDOT := d]
  {
    hide AsMap, Proper, Trunc, IsCString, Names, OnlyDot;
    DotNames();
    FirstEntry(f, i);
    ghost var c := f.nodes[i].content;
    OnlyDotIs(c, i);
    var r, k := f.DirLink(i, DOTDOT, d);
    assert r == Linked;
    SecondSlot(c, i, k);
  }

  /** `r` is `ns` with a new inode `i`, entered in `d` under `name`. */
  ghost predicate MadeIn(ns: Nodes, r: Nodes, d: nat, name: Name, i: nat, typ: FileType) {
    && d in ns && i !in ns && d in r && i in r
    && r == ns[i := r[i]][d := ns[d].(content := r[d].content, nlink := if typ == DirType then ns[d].nlink + 1 else ns[d].nlink)]
    && r[i].typ == typ && r[i].nlink == 1 && (typ != DirType ==> r[i].content == [])
    && (typ == DirType ==>
          Proper(r[i].content) && AsMap(r[i].content) == map[DOT := i, DOTDOT := d] && DotsFirst(r[i].content))
    && Proper(r[d].content) && (DotsFirst(ns[d].content) ==> DotsFirst(r[d].content))
    && AsMap(r[d].content) == AsMap(ns[d].content)[name := i]
  }

  lemma {:induction false} CreateIs(ns: Nodes, r: Nodes, d: nat, name: Name, i: nat, typ: FileType, removed: set<nat>, pending: multiset<nat>)
    requires IsDirectory(ns, d) && MadeIn(ns, r, d, name, i, typ) && name !in AsMap(ns[d].content) && i != 0
    ensures var e := Create(d, name, i, typ == DirType);
            var s := FsOf(ns, removed, pending);
            Enabled(s, e) && FsOf(r, removed, pending) == Step(s, e)
  {
    hide AsMap, DotsFirst, Proper, AbsNode, Abs;
    var s := FsOf(ns, removed, pending);
    AbsUpdate(ns, i, r[i]);
    AbsUpdate(ns[i := r[i]], d, r[d]);
    MadeAbs(ns, r, d, name, i, typ);
  }

  lemma {:induction false} MadeAbs(ns: Nodes, r: Nodes, d: nat, name: Name, i: nat, typ: FileType)
    requires IsDirectory(ns, d) && MadeIn(ns, r, d, name, i, typ)
    ensures AbsNode(r[i]) == Inode(typ == DirType, 1, if typ == DirType then map[DOT := i, DOTDOT := d] else map[])
    ensures d in Abs(ns) && Abs(ns)[d].isDir && Abs(ns)[d].ents == AsMap(ns[d].content)
    ensures AbsNode(r[d]) == Abs(ns)[d].(ents := Abs(ns)[d].ents[name := i], nlink := Abs(ns)[d].nlink + if typ == DirType then 1 else 0)
  {
    hide AsMap, DotsFirst, Proper;
    assert Abs(ns)[d] == AbsNode(ns[d]);
  }

  lemma {:induction false} MadeShaped(ns: Nodes, r: Nodes, d: nat, name: Name, i: nat, typ: FileType)
    requires IsDirectory(ns, d) && MadeIn(ns, r, d, name, i, typ) && Shaped(ns) && 0 < i < 0x1_0000
    ensures Shaped(r)
  {
    hide AsMap, DotsFirst, Proper;
    ShapedAt(ns, d);
    hide Shaped;
    ShapedUpdate(ns, i, r[i]);
    ShapedUpdate(ns[i := r[i]], d, r[d]);
  }

  lemma {:induction false} MadeHeld(ns: Nodes, r: Nodes, d: nat, name: Name, i: nat, typ: FileType, was: multiset<nat>, before: set<nat>, after: set<nat>)
    requires MadeIn(ns, r, d, name, i, typ) && Held(ns, was, before) && AllThere(ns, was)
    requires forall j :: j in was && j in before ==> j in after
    ensures Held(r, was, after) && AllThere(r, was + multiset{i})
  {
    hide AsMap, DotsFirst, Proper;
  }

  /** The inode ialloc() finds: the first one not in use, if there is one. */
  ghost predicate FirstSpare(ns: Nodes, ninodes: nat, spare: Option<nat>) {
    match spare
    case None => forall i :: 1 <= i < ninodes ==> i in ns
    case Some(i) => 1 <= i < ninodes && i !in ns && forall j :: 1 <= j < i ==> j in ns
  }

  /** The search of ialloc(). */
  method Ialloc(f: Files, ninodes: nat) returns (spare: Option<nat>)
    ensures FirstSpare(f.nodes, ninodes, spare)
  {
    var inum := 1;
    while inum < ninodes
      invariant 1 <= inum && forall i :: 1 <= i < inum ==> i in f.nodes
    {
      if inum !in f.nodes {
        return Some(inum);
      }
      inum := inum + 1;
    }
    spare := None;
  }

  /** What create() returns. */
  ghost function CreateResult(ns: Nodes, dp: Resolved, name: Name, typ: FileType, spare: Option<nat>): (r: Created) {
    match dp
    case NoType => Panicked
    case Missing => Nothing
    case Reached(d) =>
      if d !in ns then Nothing
      else if name in AsMap(ns[d].content) then
        var i := AsMap(ns[d].content)[name];
        if i !in ns then Panicked else if typ == FileType && ns[i].typ == FileType then Old(i) else Nothing
      else if spare.None? || Packed(ns[d].content) then Panicked else New(spare.value)
  }

  /** create(): returns a file that is already there, or makes a new inode and enters it, which is a
      step of the system; the caller holds one reference more for what is returned. */
  method CreateFile(f: Files, path: Name, typ: FileType, ninodes: nat, cwd: nat, ghost removed: set<nat>, ghost pending: multiset<nat>)
    returns (r: Created, ghost dp: Resolved, ghost spare: Option<nat>)
    requires IsCString(path) && Ready(f, removed, pending) && ninodes <= 0x1_0000
    modifies f`nodes, f`refs, f`loaded
    ensures dp == Resolve(old(f.nodes), Start(path, cwd), Elems(path), true) && FirstSpare(old(f.nodes), ninodes, spare)
    ensures r == CreateResult(old(f.nodes), dp, LastName(path), typ, spare)
    ensures r != Panicked ==> Ready(f, removed, pending)
    ensures r.Nothing? ==> f.refs == old(f.refs) && f.nodes == old(f.nodes)
    ensures r.Old? ==> f.refs == old(f.refs) + multiset{r.i} && f.nodes == old(f.nodes)
    ensures r.New? ==>
              && dp.Reached? && f.refs == old(f.refs) + multiset{r.i} && FilesKept(old(f.nodes), f.nodes)
              && r.i in f.nodes && f.nodes[r.i].typ == typ && (typ != DirType ==> f.nodes[r.i].content == [])
              && var e := Create(dp.i, LastName(path), r.i, typ == DirType);
                 var s := FsOf(old(f.nodes), removed, pending);
                 Enabled(s, e) && FsOf(f.nodes, removed, pending) == Step(s, e)
  {
    hide AsMap, DirsProper, Elems, Resolve, Trunc, Step, Enabled, IsCString, Proper, Names, MadeIn, Sane, Shaped, Held, Abs, DotsFirst, LastName, Packed;
    ghost var was := f.refs;
    ghost var ns := f.nodes;
    var free := Ialloc(f, ninodes);
    spare := free;
    ShapedProper(ns);
    LastNameOk(path);
    var d, n := f.Namex(path, true, cwd, ROOT);
    dp := d;
    if !d.Reached? {
      return if d.NoType? then Panicked else Nothing, dp, spare;
    }
    ResolvedDir(ns, Start(path, cwd), Elems(path));
    LastNameIs(path);
    ShapedAt(ns, d.i);
    HeldLock(ns, was, f.loaded, d.i);
    var _ := f.Ilock(d.i);
    ghost var loaded := f.loaded;
    var found := f.DirLookup(d.i, n);
    if found.Some? {
      HeldGet(ns, was, loaded, found.value.inum);
      r := CreateFound(f, d.i, found.value.inum, typ, was, removed, pending);
      return;
    }
    if free.None? {
      return Panicked, dp, spare;
    }
    r := CreateNew(f, d.i, n, free.value, typ, was, removed, pending);
  }

  lemma {:induction false} MadeFiles(ns: Nodes, r: Nodes, d: nat, name: Name, i: nat, typ: FileType)
    requires IsDirectory(ns, d) && MadeIn(ns, r, d, name, i, typ)
    ensures FilesKept(ns, r) && i in r && r[i].typ == typ && (typ != DirType ==> r[i].content == [])
  {
    hide AsMap, Proper, DotsFirst;
  }

  /** create() when the name is not there, and there is an inode. */
  method CreateNew(f: Files, d: nat, name: Name, i: nat, typ: FileType, ghost was: multiset<nat>, ghost removed: set<nat>, ghost pending: multiset<nat>) returns (r: Created)
    requires Shaped(f.nodes) && Held(f.nodes, was, f.loaded) && AllThere(f.nodes, was) && Sane(FsOf(f.nodes, removed, pending))
    requires f.refs == was + multiset{d} && IsDirectory(f.nodes, d) && name !in AsMap(f.nodes[d].content)
    requires i !in f.nodes && 0 < i < 0x1_0000 && IsCString(name) && Trunc(name) == name
    modifies f`nodes, f`refs, f`loaded
    ensures r == if Packed(old(f.nodes)[d].content) then Panicked else New(i)
    ensures r != Panicked ==>
              && Ready(f, removed, pending) && f.refs == was + multiset{i} && FilesKept(old(f.nodes), f.nodes)
              && i in f.nodes && f.nodes[i].typ == typ && (typ != DirType ==> f.nodes[i].content == [])
              && var e := Create(d, name, i, typ == DirType);
                 var s := FsOf(old(f.nodes), removed, pending);
                 Enabled(s, e) && FsOf(f.nodes, removed, pending) == Step(s, e)
  {
    hide AsMap, Trunc, Step, Enabled, IsCString, Proper, MadeIn, Sane, Shaped, Held, Abs, DotsFirst, Packed;
    ghost var ns := f.nodes;
    ghost var loaded := f.loaded;
    ShapedAt(ns, d);
    var ok := MakeIn(f, d, name, i, typ);
    if !ok {
      return Panicked;
    }
    CreateIs(ns, f.nodes, d, name, i, typ, removed, pending);
    SaneStep(FsOf(ns, removed, pending), Create(d, name, i, typ == DirType));
    MadeShaped(ns, f.nodes, d, name, i, typ);
    MadeHeld(ns, f.nodes, d, name, i, typ, was, loaded, f.loaded);
    MadeFiles(ns, f.nodes, d, name, i, typ);
    f.DropFor(d, i, was);
    HeldMore(f.nodes, was, f.refs, f.loaded);
    r := New(i);
  }

  /** create() when the name is there. */
  method CreateFound(f: Files, d: nat, ip: nat, typ: FileType, ghost was: multiset<nat>, ghost removed: set<nat>, ghost pending: multiset<nat>) returns (r: Created)
    requires Shaped(f.nodes) && Held(f.nodes, was, f.loaded) && AllThere(f.nodes, was) && Sane(FsOf(f.nodes, removed, pending))
    requires f.refs == was + multiset{d} + multiset{ip}
    modifies f`nodes, f`refs, f`loaded
    ensures f.nodes == old(f.nodes)
    ensures r == if ip !in f.nodes then Panicked else if typ == FileType && f.nodes[ip].typ == FileType then Old(ip) else Nothing
    ensures r != Panicked ==> Ready(f, removed, pending) && f.refs == if r.Old? then was + multiset{ip} else was
  {
    hide Sane, Shaped, Held, Abs;
    f.DropFor(d, ip, was);
    HeldLock(f.nodes, was, f.loaded, ip);
    var there := f.Ilock(ip);
    if !there {
      return Panicked;
    }
    if typ == FileType && f.nodes[ip].typ == FileType {
      HeldMore(f.nodes, was, f.refs, f.loaded);
      return Old(ip);
    }
    f.Drop(ip, was);
    r := Nothing;
  }

  /** The allocation and the entries of create(). */
  method MakeIn(f: Files, d: nat, name: Name, i: nat, typ: FileType) returns (ok: bool)
    requires IsDirectory(f.nodes, d) && Proper(f.nodes[d].content)
    requires i !in f.nodes && 0 < i < 0x1_0000 && 0 < d < 0x1_0000 && IsCString(name) && Trunc(name) == name
    requires name !in AsMap(f.nodes[d].content)
    modifies f`nodes, f`refs, f`loaded
    ensures f.refs == old(f.refs) + multiset{i}
    ensures ok <==> !Packed(old(f.nodes)[d].content)
    ensures ok ==> MadeIn(old(f.nodes), f.nodes, d, name, i, typ)
    ensures forall j :: j in old(f.refs) && j in old(f.loaded) ==> j in f.loaded
  {
    hide AsMap, Proper, Trunc, IsCString, Names, DotsFirst, Packed, EnteredIn, MadeIn;
    ghost var ns := f.nodes;
    f.nodes := f.nodes[i := Node(typ, 1, [])];
    f.Iget(i);
    var _ := f.Ilock(i);
    if typ == DirType {
      SetNlink(f, d, f.nodes[d].nlink + 1);
      MakeDots(f, i, d);
    }
    ghost var m := f.nodes;
    var out := Enter(f, d, name, i);
    ok := out == Linked;
    if ok {
      MadeByEntry(ns, m, f.nodes, d, name, i, typ);
    }
  }

  lemma {:induction false} MadeByEntry(ns: Nodes, m: Nodes, r: Nodes, d: nat, name: Name, i: nat, typ: FileType)
    requires d in ns && i !in ns && i in m && EnteredIn(m, r, d, name, i)
    requires m == if typ == DirType then ns[i := m[i]][d := ns[d].(nlink := ns[d].nlink + 1)] else ns[i := m[i]]
    requires m[i].typ == typ && m[i].nlink == 1 && (typ != DirType ==> m[i].content == [])
    requires typ == DirType ==>
               Proper(m[i].content) && AsMap(m[i].content) == map[DOT := i, DOTDOT := d] && DotsFirst(m[i].content)
    ensures MadeIn(ns, r, d, name, i, typ)
  {
    hide AsMap, Proper, DotsFirst;
  }

  // ---------------------------------------------------------------- open, close

  /** What sys_open() returns. */
  ghost function OpenResult(ns: Nodes, ip: Resolved, write: bool): (r: Created) {
    match ip
    case NoType => Panicked
    case Missing => Nothing
    case Reached(i) => if i !in ns then Panicked else if ns[i].typ == DirType && write then Nothing else Old(i)
  }

  /** sys_open() of what is there: the inode is read, and a reference to it kept. */
  method OpenFile(f: Files, path: Name, write: bool, cwd: nat, ghost removed: set<nat>, ghost pending: multiset<nat>)
    returns (r: Created, ghost ip: Resolved)
    requires IsCString(path) && Ready(f, removed, pending)
    modifies f`nodes, f`refs, f`loaded
    ensures f.nodes == old(f.nodes) && ip == Resolve(f.nodes, Start(path, cwd), Elems(path), false)
    ensures r.Old? <==> ip.Reached? && ip.i in f.nodes && !(f.nodes[ip.i].typ == DirType && write)
    ensures r == Panicked <==> ip.NoType? || (ip.Reached? && ip.i !in f.nodes)
    ensures r.Old? ==> r.i == ip.i
    ensures r == OpenResult(f.nodes, ip, write)
    ensures r != Panicked ==>
              Ready(f, removed, pending) && f.refs == if r.Old? then old(f.refs) + multiset{r.i} else old(f.refs)
  {
    hide DirsProper, Elems, Resolve, IsCString, Sane, Shaped, Held, Abs;
    ghost var was := f.refs;
    ShapedProper(f.nodes);
    var i, _ := f.Namex(path, false, cwd, ROOT);
    ip := i;
    if !i.Reached? {
      return if i.NoType? then Panicked else Nothing, ip;
    }
    HeldLock(f.nodes, was, f.loaded, i.i);
    var there := f.Ilock(i.i);
    if !there {
      return Panicked, ip;
    }
    if f.nodes[i.i].typ == DirType && write {
      f.Drop(i.i, was);
      return Nothing, ip;
    }
    HeldMore(f.nodes, was, f.refs, f.loaded);
    r := Old(i.i);
  }

  /** A reference is given up, as sys_close(), sys_chdir() and exit() do: what has no links goes with its
      last reference. */
  method CloseFile(f: Files, i: nat, ghost removed: set<nat>, ghost pending: multiset<nat>) returns (ghost gone: set<nat>)
    requires i in f.refs && Ready(f, removed, pending)
    modifies f`nodes, f`refs, f`loaded
    ensures f.refs == old(f.refs) - multiset{i} && Ready(f, gone, pending) && f.nodes == FreedNodes(old(f.nodes), i, f.refs)
    ensures FsOf(f.nodes, gone, pending) == Freed(FsOf(old(f.nodes), removed, pending), i, f.refs)
  {
    hide Sane, Shaped, Abs, Freed, FreedNodes;
    ghost var ns := f.nodes;
    ghost var was := f.refs;
    ghost var s := FsOf(ns, removed, pending);
    ghost var loaded := f.loaded;
    f.Iput(i);
    ClosedNodes(ns, f.nodes, i, was, loaded, f.loaded);
    FreedIs(ns, i, f.refs, removed, pending);
    FreedSane(s, i, f.refs);
    ShapedLess(ns, f.nodes, i);
    gone := Freed(s, i, f.refs).removed;
  }

  lemma {:induction false} ClosedNodes(ns: Nodes, r: Nodes, i: nat, was: multiset<nat>, before: set<nat>, after: set<nat>)
    requires i in was && Held(ns, was, before) && AllThere(ns, was)
    requires if i in before && i in ns && ns[i].nlink == 0 && was[i] == 1 then r == ns - {i} && after == before - {i}
             else r == ns && after == before
    ensures r == FreedNodes(ns, i, was - multiset{i}) && Held(r, was - multiset{i}, after) && AllThere(r, was - multiset{i})
  {
  }
}
