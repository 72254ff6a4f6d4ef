/** Link counts (sysfile.c, fs.c): over the runs of link, unlink, create and of freeing inodes, when
    the link count of every inode is the number of directory entries that name it. */
module Links {

  import opened Options
  import opened Dirents
  import opened Namei

  /** An inode; a directory's entries are the map its content stands for. */
  datatype Inode = Inode(isDir: bool, nlink: nat, ents: map<Name, nat>)

  /** The inodes in use; the directories that have been unlinked but not yet freed; and the inodes for
      which sys_link() has raised the count but not yet made the entry. */
  datatype Fs = Fs(nodes: map<nat, Inode>, removed: set<nat>, pending: multiset<nat>)

  const ROOT := 1

  predicate Dots(n: Name) {
    n == DOT || n == DOTDOT
  }

  /** Entry `n` of directory `d` names inode `i`, and counts: "." does not, nor does the ".." of a
      removed directory. */
  predicate Counts(s: Fs, d: nat, n: Name, i: nat) {
    && d in s.nodes && n in s.nodes[d].ents && s.nodes[d].ents[n] == i
    && n != DOT && !(n == DOTDOT && d in s.removed)
  }

  ghost function Refs(s: Fs, i: nat): (r: set<(nat, Name)>) {
    set d, n | d in s.nodes && n in s.nodes[d].ents && Counts(s, d, n, i) :: (d, n)
  }

  lemma {:induction false} RefsAre(s: Fs, i: nat, d: nat, n: Name)
    ensures (d, n) in Refs(s, i) <==> Counts(s, d, n, i)
  {
  }

  /** An entry other than the dots. */
  predicate Holds(s: Fs, d: nat, n: Name, i: nat) {
    d in s.nodes && n in s.nodes[d].ents && s.nodes[d].ents[n] == i && !Dots(n)
  }

  // ---------------------------------------------------------------- invariant

  /** The link count of every inode. */
  ghost predicate LinksCounted(s: Fs) {
    forall i :: i in s.nodes ==> s.nodes[i].nlink == |Refs(s, i)| + s.pending[i]
  }

  /** Links that no entry accounts for. */
  ghost function Excess(s: Fs, i: nat): (r: int)
    requires i in s.nodes
  {
    s.nodes[i].nlink - |Refs(s, i)| - s.pending[i]
  }

  ghost predicate EnoughLinks(s: Fs) {
    forall i :: i in s.nodes ==> Excess(s, i) >= 0
  }

  ghost predicate NodeOk(s: Fs, i: nat)
    requires i in s.nodes
  {
    var x := s.nodes[i];
    if x.isDir then DOT in x.ents && x.ents[DOT] == i && DOTDOT in x.ents
    else x.ents == map[] && i !in s.removed
  }

  /** Directories form a tree: one entry names each of them, in the directory that is their "..". */
  ghost predicate Tree(s: Fs) {
    && ROOT in s.nodes && s.nodes[ROOT].isDir && ROOT !in s.removed
    && DOTDOT in s.nodes[ROOT].ents && s.nodes[ROOT].ents[DOTDOT] == ROOT
    && (forall d, n, i :: Holds(s, d, n, i) && i in s.nodes && s.nodes[i].isDir ==>
          && DOTDOT in s.nodes[i].ents && s.nodes[i].ents[DOTDOT] == d && d != i && i != ROOT && i !in s.removed)
    && (forall d, n, m, i :: Holds(s, d, n, i) && Holds(s, d, m, i) && i in s.nodes && s.nodes[i].isDir ==> n == m)
  }

  /** Every directory but the root is named by some entry, until it is removed. */
  ghost predicate Attached(s: Fs) {
    forall i :: i in s.nodes && s.nodes[i].isDir && i != ROOT && i !in s.removed ==>
      DOTDOT in s.nodes[i].ents && exists n :: Holds(s, s.nodes[i].ents[DOTDOT], n, i)
  }

  ghost predicate RemovedDirs(s: Fs) {
    forall d :: d in s.removed ==> d in s.nodes && s.nodes[d].isDir
  }

  ghost predicate RemovedEmpty(s: Fs) {
    forall d :: d in s.removed ==> d in s.nodes && s.nodes[d].ents.Keys == {DOT, DOTDOT}
  }

  ghost predicate Closed(s: Fs) {
    && (forall d, n, i :: Counts(s, d, n, i) ==> i in s.nodes)
    && (forall i :: i in s.pending ==> i in s.nodes && !s.nodes[i].isDir)
    && (forall i :: i in s.nodes ==> NodeOk(s, i))
  }

  /** What every step keeps. */
  ghost predicate Sane(s: Fs) {
    EnoughLinks(s) && Tree(s) && Attached(s) && RemovedDirs(s) && Closed(s)
  }

  // ---------------------------------------------------------------- steps

  datatype Event =
    | LinkStart(i: nat)
    | LinkFinish(i: nat, dp: Option<nat>, name: Name)
    | Unlink(d: nat, name: Name)
    | Create(d: nat, name: Name, i: nat, isDir: bool)
    | Free(i: nat)

  /** What the code checks before it acts. */
  predicate Enabled(s: Fs, e: Event) {
    match e
    case LinkStart(i) => i in s.nodes && !s.nodes[i].isDir
    case LinkFinish(i, dp, name) =>
      && i in s.pending && i in s.nodes && s.nodes[i].nlink > 0
      && match dp { case None => true case Some(d) => d in s.nodes && s.nodes[d].isDir }
    case Unlink(d, name) =>
      && d in s.nodes && s.nodes[d].isDir && !Dots(name) && name in s.nodes[d].ents
      && var i := s.nodes[d].ents[name];
         i in s.nodes && (s.nodes[i].isDir ==> s.nodes[i].ents.Keys == {DOT, DOTDOT})
    case Create(d, name, i, _) =>
      && d in s.nodes && s.nodes[d].isDir && name !in s.nodes[d].ents && i !in s.nodes && i != 0
    case Free(i) => i in s.nodes && s.nodes[i].nlink == 0
  }

  function Entered(s: Fs, d: nat, name: Name, i: nat): (x: Inode)
    requires d in s.nodes
  {
    s.nodes[d].(ents := s.nodes[d].ents[name := i])
  }

  function Dec(n: nat): (r: nat) {
    if n == 0 then 0 else n - 1
  }

  function Step(s: Fs, e: Event): (t: Fs)
    requires Enabled(s, e)
  {
    match e
    case LinkStart(i) =>
      s.(nodes := s.nodes[i := s.nodes[i].(nlink := s.nodes[i].nlink + 1)], pending := s.pending + multiset{i})
    case LinkFinish(i, dp, name) =>
      if dp.None? || name in s.nodes[dp.value].ents then
        s.(nodes := s.nodes[i := s.nodes[i].(nlink := Dec(s.nodes[i].nlink))], pending := s.pending - multiset{i})
      else
        s.(nodes := s.nodes[dp.value := Entered(s, dp.value, name, i)], pending := s.pending - multiset{i})
    case Unlink(d, name) =>
      var i := s.nodes[d].ents[name];
      var erased := s.nodes[d].(ents := s.nodes[d].ents - {name});
      if s.nodes[i].isDir then
        var ns := s.nodes[d := erased.(nlink := Dec(erased.nlink))];
        s.(nodes := ns[i := ns[i].(nlink := Dec(ns[i].nlink))], removed := s.removed + {i})
      else
        var ns := s.nodes[d := erased];
        s.(nodes := ns[i := ns[i].(nlink := Dec(ns[i].nlink))])
    case Create(d, name, i, isDir) =>
      var parent := Entered(s, d, name, i);
      if isDir then
        s.(nodes := s.nodes[i := Inode(true, 1, map[DOT := i, DOTDOT := d])][d := parent.(nlink := parent.nlink + 1)])
      else
        s.(nodes := s.nodes[i := Inode(false, 1, map[])][d := parent])
    case Free(i) =>
      s.(nodes := s.nodes - {i}, removed := s.removed - {i})
  }

  /** The event frees a directory that has entries beside the dots. */
  predicate LosesEntries(s: Fs, e: Event) {
    e.Free? && e.i in s.nodes && s.nodes[e.i].isDir && s.nodes[e.i].ents.Keys != {DOT, DOTDOT}
  }

  /** The event makes an entry in a directory that has been removed. */
  predicate IntoRemoved(s: Fs, e: Event) {
    match e
    case LinkFinish(_, dp, name) =>
      dp.Some? && dp.value in s.removed && dp.value in s.nodes && name !in s.nodes[dp.value].ents
    case Create(d, _, _, _) => d in s.removed
    case _ => false
  }

  // ---------------------------------------------------------------- counting entries

  lemma {:induction false} RefsSame(s: Fs, t: Fs, i: nat)
    requires forall d: nat, n: Name :: Counts(t, d, n, i) <==> Counts(s, d, n, i)
    ensures Refs(t, i) == Refs(s, i)
  {
    hide Counts;
    forall d: nat, n: Name
      ensures (d, n) in Refs(t, i) <==> (d, n) in Refs(s, i)
    {
      RefsAre(s, i, d, n);
      RefsAre(t, i, d, n);
    }
  }

  lemma {:induction false} RefsPlus(s: Fs, t: Fs, i: nat, d0: nat, n0: Name)
    requires !Counts(s, d0, n0, i)
    requires forall d: nat, n: Name :: Counts(t, d, n, i) <==> Counts(s, d, n, i) || (d == d0 && n == n0)
    ensures |Refs(t, i)| == |Refs(s, i)| + 1
  {
    hide Counts;
    var p := (d0, n0);
    forall d: nat, n: Name
      ensures (d, n) in Refs(t, i) <==> (d, n) in Refs(s, i) + {p}
    {
      RefsAre(s, i, d, n);
      RefsAre(t, i, d, n);
    }
    assert Refs(t, i) == Refs(s, i) + {p};
    RefsAre(s, i, d0, n0);
  }

  /** What is counted is there to be counted. */
  lemma {:induction false} RefsSome(s: Fs, i: nat, d: nat, n: Name)
    requires Counts(s, d, n, i)
    ensures |Refs(s, i)| > 0
  {
    RefsAre(s, i, d, n);
    hide Counts;
    assert (d, n) in Refs(s, i);
  }

  lemma {:induction false} RefsNone(s: Fs, i: nat)
    requires |Refs(s, i)| == 0
    ensures forall d: nat, n: Name :: !Counts(s, d, n, i)
  {
    forall d: nat, n: Name
      ensures !Counts(s, d, n, i)
    {
      if Counts(s, d, n, i) {
        RefsSome(s, i, d, n);
      }
    }
  }

  /** Nothing gains or loses a link that no entry accounts for. */
  ghost predicate SameExcess(s: Fs, t: Fs) {
    forall i :: i in t.nodes ==> Excess(t, i) == if i in s.nodes then Excess(s, i) else 0
  }

  lemma {:induction false} SameExcessKeeps(s: Fs, t: Fs)
    requires SameExcess(s, t)
    ensures EnoughLinks(s) ==> EnoughLinks(t)
    ensures LinksCounted(s) ==> LinksCounted(t)
  {
    hide Refs;
    assert LinksCounted(s) ==> forall i :: i in s.nodes ==> Excess(s, i) == 0;
    assert forall i :: i in t.nodes ==> t.nodes[i].nlink == |Refs(t, i)| + t.pending[i] + Excess(t, i);
  }

  /** Directories that are still there keep the entries that name them. */
  lemma {:induction false} StillAttached(s: Fs, t: Fs)
    requires Attached(s)
    requires forall j :: j in t.nodes && t.nodes[j].isDir && j != ROOT && j !in t.removed ==>
               && j in s.nodes && s.nodes[j].isDir && j !in s.removed
               && DOTDOT in t.nodes[j].ents && DOTDOT in s.nodes[j].ents
               && t.nodes[j].ents[DOTDOT] == s.nodes[j].ents[DOTDOT]
    requires forall d: nat, n: Name, j: nat :: Holds(s, d, n, j) && j in t.nodes && t.nodes[j].isDir && j !in t.removed ==>
               Holds(t, d, n, j)
    ensures Attached(t)
  {
    hide Holds;
    forall j | j in t.nodes && t.nodes[j].isDir && j != ROOT && j !in t.removed
      ensures DOTDOT in t.nodes[j].ents && exists n :: Holds(t, t.nodes[j].ents[DOTDOT], n, j)
    {
      var n :| Holds(s, s.nodes[j].ents[DOTDOT], n, j);
      assert Holds(t, t.nodes[j].ents[DOTDOT], n, j);
    }
  }

  // ---------------------------------------------------------------- link

  /** Only link counts and pending links differ. */
  ghost predicate SameEntries(s: Fs, t: Fs) {
    && t.nodes.Keys == s.nodes.Keys && t.removed == s.removed
    && forall i :: i in s.nodes ==> t.nodes[i].ents == s.nodes[i].ents && t.nodes[i].isDir == s.nodes[i].isDir
  }

  lemma {:induction false} SameShape(s: Fs, t: Fs)
    requires Sane(s) && SameEntries(s, t)
    requires forall i :: i in t.pending ==> i in s.pending || (i in s.nodes && !s.nodes[i].isDir)
    ensures Tree(t) && Attached(t) && RemovedDirs(t) && Closed(t)
    ensures forall i :: Refs(t, i) == Refs(s, i)
  {
    hide EnoughLinks;
    assert forall d, n, i :: Holds(t, d, n, i) <==> Holds(s, d, n, i);
    assert forall d, n, i :: Counts(t, d, n, i) <==> Counts(s, d, n, i);
    assert forall i :: i in t.nodes ==> (NodeOk(t, i) <==> NodeOk(s, i));
    forall i
      ensures Refs(t, i) == Refs(s, i)
    {
      RefsSame(s, t, i);
    }
    hide Refs, Counts, Holds, NodeOk;
    assert Attached(t) by {
      forall i | i in t.nodes && t.nodes[i].isDir && i != ROOT && i !in t.removed
        ensures DOTDOT in t.nodes[i].ents && exists n :: Holds(t, t.nodes[i].ents[DOTDOT], n, i)
      {
        var n :| Holds(s, s.nodes[i].ents[DOTDOT], n, i);
        assert Holds(t, t.nodes[i].ents[DOTDOT], n, i);
      }
    }
  }

  lemma {:induction false} LinkStartKeeps(s: Fs, i: nat)
    requires Sane(s) && Enabled(s, LinkStart(i))
    ensures Sane(Step(s, LinkStart(i))) && SameExcess(s, Step(s, LinkStart(i)))
  {
    hide Tree, Attached, RemovedDirs, Closed, Refs;
    var t := Step(s, LinkStart(i));
    assert s.nodes[i].isDir == t.nodes[i].isDir;
    SameShape(s, t);
    SameExcessKeeps(s, t);
  }

  lemma {:induction false} LinkFailKeeps(s: Fs, i: nat, dp: Option<nat>, name: Name)
    requires Sane(s) && Enabled(s, LinkFinish(i, dp, name))
    requires dp.None? || name in s.nodes[dp.value].ents
    ensures Sane(Step(s, LinkFinish(i, dp, name))) && SameExcess(s, Step(s, LinkFinish(i, dp, name)))
  {
    hide Tree, Attached, RemovedDirs, Closed, Refs;
    var t := Step(s, LinkFinish(i, dp, name));
    assert s.nodes[i].isDir == t.nodes[i].isDir;
    SameShape(s, t);
    SameExcessKeeps(s, t);
  }

  /** `t` is `s` with one more entry, which names inode `i`. */
  ghost predicate OneMore(s: Fs, t: Fs, d: nat, name: Name, i: nat) {
    && d in s.nodes && name !in s.nodes[d].ents && !Dots(name)
    && t.removed == s.removed && t.nodes == s.nodes[d := Entered(s, d, name, i)]
  }

  lemma {:induction false} OneMoreAt(s: Fs, t: Fs, d: nat, name: Name, i: nat, x: nat, n: Name, j: nat)
    requires OneMore(s, t, d, name, i)
    ensures Counts(t, x, n, j) <==> Counts(s, x, n, j) || (x == d && n == name && j == i)
    ensures Holds(t, x, n, j) <==> Holds(s, x, n, j) || (x == d && n == name && j == i)
    ensures !Counts(s, d, name, j)
  {
  }

  lemma {:induction false} OneMoreCounted(s: Fs, t: Fs, d: nat, name: Name, i: nat)
    requires OneMore(s, t, d, name, i) && i in s.pending && t.pending == s.pending - multiset{i}
    ensures SameExcess(s, t)
  {
    forall j | j in t.nodes
      ensures Excess(t, j) == Excess(s, j)
    {
      forall x: nat, n: Name
        ensures Counts(t, x, n, j) <==> Counts(s, x, n, j) || (x == d && n == name && j == i)
      {
        OneMoreAt(s, t, d, name, i, x, n, j);
      }
      OneMoreAt(s, t, d, name, i, d, name, j);
      hide Counts;
      if j == i {
        RefsPlus(s, t, j, d, name);
      } else {
        RefsSame(s, t, j);
      }
    }
  }

  lemma {:induction false} OneMoreTree(s: Fs, t: Fs, d: nat, name: Name, i: nat)
    requires Tree(s) && Attached(s) && OneMore(s, t, d, name, i) && i in s.nodes && !s.nodes[i].isDir
    ensures Tree(t) && Attached(t)
  {
    hide Holds, Counts;
    forall x: nat, n: Name, j: nat
      ensures Holds(t, x, n, j) <==> Holds(s, x, n, j) || (x == d && n == name && j == i)
    {
      OneMoreAt(s, t, d, name, i, x, n, j);
    }
    StillAttached(s, t);
  }

  lemma {:induction false} OneMoreClosed(s: Fs, t: Fs, d: nat, name: Name, i: nat)
    requires Closed(s) && OneMore(s, t, d, name, i) && i in s.nodes && s.nodes[d].isDir
    requires forall j :: j in t.pending ==> j in s.pending
    ensures Closed(t)
  {
    forall x: nat, n: Name, j: nat
      ensures Counts(t, x, n, j) <==> Counts(s, x, n, j) || (x == d && n == name && j == i)
    {
      OneMoreAt(s, t, d, name, i, x, n, j);
    }
    hide Counts;
    forall j | j in t.nodes
      ensures NodeOk(t, j)
    {
      assert NodeOk(s, j);
    }
  }

  lemma {:induction false} NotDots(s: Fs, d: nat, name: Name)
    requires Closed(s) && d in s.nodes && s.nodes[d].isDir && name !in s.nodes[d].ents
    ensures !Dots(name)
  {
    assert NodeOk(s, d);
  }

  lemma {:induction false} PendingFile(s: Fs, i: nat)
    requires Closed(s) && i in s.pending
    ensures i in s.nodes && !s.nodes[i].isDir
  {
  }

  lemma {:induction false} LinkAddKeeps(s: Fs, i: nat, d: nat, name: Name)
    requires Sane(s) && Enabled(s, LinkFinish(i, Some(d), name)) && name !in s.nodes[d].ents
    ensures Sane(Step(s, LinkFinish(i, Some(d), name))) && SameExcess(s, Step(s, LinkFinish(i, Some(d), name)))
  {
    hide EnoughLinks, SameExcess, Tree, Attached, Closed;
    var t := Step(s, LinkFinish(i, Some(d), name));
    NotDots(s, d, name);
    PendingFile(s, i);
    OneMoreCounted(s, t, d, name, i);
    SameExcessKeeps(s, t);
    OneMoreTree(s, t, d, name, i);
    OneMoreClosed(s, t, d, name, i);
  }

  // ---------------------------------------------------------------- create

  /** A file's inode, allocated but not yet entered. */
  function Allocated(s: Fs, i: nat): (u: Fs) {
    s.(nodes := s.nodes[i := Inode(false, 1, map[])], pending := s.pending + multiset{i})
  }

  lemma {:induction false} AllocatedAt(s: Fs, i: nat, d: nat, n: Name, j: nat)
    requires i !in s.nodes
    ensures Counts(Allocated(s, i), d, n, j) <==> Counts(s, d, n, j)
    ensures Holds(Allocated(s, i), d, n, j) <==> Holds(s, d, n, j)
  {
  }

  lemma {:induction false} AllocatedKeeps(s: Fs, i: nat)
    requires Sane(s) && i !in s.nodes
    ensures Sane(Allocated(s, i)) && SameExcess(s, Allocated(s, i))
  {
    hide EnoughLinks, SameExcess, Tree, Attached, Closed;
    AllocatedCounted(s, i);
    SameExcessKeeps(s, Allocated(s, i));
    AllocatedTree(s, i);
    AllocatedClosed(s, i);
  }

  lemma {:induction false} AllocatedTree(s: Fs, i: nat)
    requires Tree(s) && Attached(s) && i !in s.nodes
    ensures Tree(Allocated(s, i)) && Attached(Allocated(s, i))
  {
    var u := Allocated(s, i);
    forall d: nat, n: Name, j: nat
      ensures Holds(u, d, n, j) <==> Holds(s, d, n, j)
    {
      AllocatedAt(s, i, d, n, j);
    }
    hide Holds;
    forall j | j in u.nodes && u.nodes[j].isDir && j != ROOT && j !in u.removed
      ensures DOTDOT in u.nodes[j].ents && exists n :: Holds(u, u.nodes[j].ents[DOTDOT], n, j)
    {
      var n :| Holds(s, s.nodes[j].ents[DOTDOT], n, j);
      assert Holds(u, u.nodes[j].ents[DOTDOT], n, j);
    }
  }

  lemma {:induction false} AllocatedClosed(s: Fs, i: nat)
    requires Closed(s) && RemovedDirs(s) && i !in s.nodes
    ensures Closed(Allocated(s, i))
  {
    var u := Allocated(s, i);
    forall d: nat, n: Name, j: nat
      ensures Counts(u, d, n, j) <==> Counts(s, d, n, j)
    {
      AllocatedAt(s, i, d, n, j);
    }
    hide Counts;
    forall j | j in u.nodes
      ensures NodeOk(u, j)
    {
      assert j != i ==> NodeOk(s, j);
    }
  }

  lemma {:induction false} AllocatedCounted(s: Fs, i: nat)
    requires Closed(s) && i !in s.nodes
    ensures SameExcess(s, Allocated(s, i))
  {
    var u := Allocated(s, i);
    forall j | j in u.nodes
      ensures Excess(u, j) == if j in s.nodes then Excess(s, j) else 0
    {
      forall d: nat, n: Name
        ensures Counts(u, d, n, j) <==> Counts(s, d, n, j)
      {
        AllocatedAt(s, i, d, n, j);
      }
      RefsSame(s, u, j);
      if j == i {
        forall d: nat, n: Name
          ensures !Counts(s, d, n, i)
        {
        }
        NoRefs(s, i);
      }
    }
  }

  lemma {:induction false} NoRefs(s: Fs, i: nat)
    requires forall d: nat, n: Name :: !Counts(s, d, n, i)
    ensures Refs(s, i) == {}
  {
  }

  lemma {:induction false} CreateFileKeeps(s: Fs, d: nat, name: Name, i: nat)
    requires Sane(s) && Enabled(s, Create(d, name, i, false))
    ensures Sane(Step(s, Create(d, name, i, false))) && SameExcess(s, Step(s, Create(d, name, i, false)))
  {
    hide Sane, Excess;
    var u := Allocated(s, i);
    AllocatedKeeps(s, i);
    LinkAddKeeps(u, i, d, name);
    assert u.pending - multiset{i} == s.pending;
    assert Step(u, LinkFinish(i, Some(d), name)).nodes == Step(s, Create(d, name, i, false)).nodes;
    assert Step(u, LinkFinish(i, Some(d), name)) == Step(s, Create(d, name, i, false));
  }

  /** `t` is `s` with a new directory `i`, entered in `d`. */
  ghost predicate NewDir(s: Fs, t: Fs, d: nat, name: Name, i: nat) {
    && d in s.nodes && name !in s.nodes[d].ents && !Dots(name) && i !in s.nodes && i !in s.removed
    && t.removed == s.removed && t.pending == s.pending
    && t.nodes == s.nodes[i := Inode(true, 1, map[DOT := i, DOTDOT := d])]
                         [d := Entered(s, d, name, i).(nlink := s.nodes[d].nlink + 1)]
  }

  lemma {:induction false} NewDirAt(s: Fs, t: Fs, d: nat, name: Name, i: nat, x: nat, n: Name, j: nat)
    requires NewDir(s, t, d, name, i)
    ensures Counts(t, x, n, j) <==>
            Counts(s, x, n, j) || (x == d && n == name && j == i) || (x == i && n == DOTDOT && j == d)
    ensures Holds(t, x, n, j) <==> Holds(s, x, n, j) || (x == d && n == name && j == i)
    ensures !Counts(s, d, name, j) && !Counts(s, i, n, j)
  {
  }

  lemma {:induction false} NewDirCounted(s: Fs, t: Fs, d: nat, name: Name, i: nat)
    requires Closed(s) && NewDir(s, t, d, name, i)
    ensures SameExcess(s, t)
  {
    assert forall x: nat, n: Name :: !Counts(s, x, n, i);
    hide Counts, Refs, Holds, NodeOk;
    NoRefs(s, i);
    forall j | j in t.nodes
      ensures Excess(t, j) == if j in s.nodes then Excess(s, j) else 0
    {
      forall x: nat, n: Name
        ensures Counts(t, x, n, j) <==>
                Counts(s, x, n, j) || (x == d && n == name && j == i) || (x == i && n == DOTDOT && j == d)
      {
        NewDirAt(s, t, d, name, i, x, n, j);
      }
      NewDirAt(s, t, d, name, i, d, name, j);
      NewDirAt(s, t, d, name, i, i, DOTDOT, j);
      if j == i {
        RefsPlus(s, t, j, d, name);
      } else if j == d {
        RefsPlus(s, t, j, i, DOTDOT);
      } else {
        RefsSame(s, t, j);
      }
    }
  }

  lemma {:induction false} NoHolds(s: Fs, x: nat, n: Name, i: nat)
    requires Closed(s) && i !in s.nodes
    ensures !Holds(s, x, n, i)
  {
    assert Holds(s, x, n, i) ==> Counts(s, x, n, i);
  }

  lemma {:induction false} NewDirTree(s: Fs, t: Fs, d: nat, name: Name, i: nat)
    requires Tree(s) && Closed(s) && NewDir(s, t, d, name, i)
    ensures Tree(t)
  {
    hide Holds, Counts, Closed;
    forall x: nat, n: Name, j: nat
      ensures Holds(t, x, n, j) <==> Holds(s, x, n, j) || (x == d && n == name && j == i)
    {
      NewDirAt(s, t, d, name, i, x, n, j);
    }
    forall x: nat, n: Name
      ensures !Holds(s, x, n, i)
    {
      NoHolds(s, x, n, i);
    }
  }

  lemma {:induction false} NewDirAttached(s: Fs, t: Fs, d: nat, name: Name, i: nat)
    requires Attached(s) && NewDir(s, t, d, name, i)
    ensures Attached(t)
  {
    forall x: nat, n: Name, j: nat
      ensures Holds(t, x, n, j) <==> Holds(s, x, n, j) || (x == d && n == name && j == i)
    {
      NewDirAt(s, t, d, name, i, x, n, j);
    }
    hide Holds, Counts, Closed;
    forall j | j in t.nodes && t.nodes[j].isDir && j != ROOT && j !in t.removed
      ensures DOTDOT in t.nodes[j].ents && exists n :: Holds(t, t.nodes[j].ents[DOTDOT], n, j)
    {
      if j == i {
        assert Holds(t, d, name, j);
      } else {
        var n :| Holds(s, s.nodes[j].ents[DOTDOT], n, j);
        assert Holds(t, t.nodes[j].ents[DOTDOT], n, j);
      }
    }
  }

  lemma {:induction false} NewDirClosed(s: Fs, t: Fs, d: nat, name: Name, i: nat)
    requires Closed(s) && NewDir(s, t, d, name, i) && s.nodes[d].isDir
    ensures Closed(t)
  {
    hide Counts, Holds;
    forall x: nat, n: Name, j: nat
      ensures Counts(t, x, n, j) <==>
              Counts(s, x, n, j) || (x == d && n == name && j == i) || (x == i && n == DOTDOT && j == d)
    {
      NewDirAt(s, t, d, name, i, x, n, j);
    }
    forall j | j in t.nodes
      ensures NodeOk(t, j)
    {
      assert j != i ==> NodeOk(s, j);
    }
  }

  lemma {:induction false} CreateDirKeeps(s: Fs, d: nat, name: Name, i: nat)
    requires Sane(s) && Enabled(s, Create(d, name, i, true))
    ensures Sane(Step(s, Create(d, name, i, true))) && SameExcess(s, Step(s, Create(d, name, i, true)))
  {
    hide EnoughLinks, SameExcess, Tree, Attached, Closed;
    var t := Step(s, Create(d, name, i, true));
    NotDots(s, d, name);
    assert NewDir(s, t, d, name, i);
    NewDirCounted(s, t, d, name, i);
    SameExcessKeeps(s, t);
    NewDirTree(s, t, d, name, i);
    NewDirAttached(s, t, d, name, i);
    NewDirClosed(s, t, d, name, i);
  }

  // ---------------------------------------------------------------- unlink

  lemma {:induction false} UnlinkedFileAt(s: Fs, d: nat, name: Name, x: nat, n: Name, j: nat)
    requires Enabled(s, Unlink(d, name)) && !s.nodes[s.nodes[d].ents[name]].isDir
    ensures var i := s.nodes[d].ents[name];
            var t := Step(s, Unlink(d, name));
            && (Counts(s, x, n, j) <==> Counts(t, x, n, j) || (x == d && n == name && j == i))
            && (Holds(s, x, n, j) <==> Holds(t, x, n, j) || (x == d && n == name && j == i))
            && !Counts(t, d, name, j)
  {
  }

  lemma {:induction false} UnlinkedFileCounted(s: Fs, d: nat, name: Name)
    requires EnoughLinks(s) && Enabled(s, Unlink(d, name)) && !s.nodes[s.nodes[d].ents[name]].isDir
    ensures SameExcess(s, Step(s, Unlink(d, name)))
  {
    hide Counts, Refs, Holds;
    var i := s.nodes[d].ents[name];
    var t := Step(s, Unlink(d, name));
    forall j | j in t.nodes
      ensures Excess(t, j) == Excess(s, j)
    {
      forall x: nat, n: Name
        ensures Counts(s, x, n, j) <==> Counts(t, x, n, j) || (x == d && n == name && j == i)
      {
        UnlinkedFileAt(s, d, name, x, n, j);
      }
      UnlinkedFileAt(s, d, name, d, name, j);
      if j == i {
        RefsPlus(t, s, j, d, name);
      } else {
        RefsSame(s, t, j);
      }
    }
  }

  lemma {:induction false} UnlinkedFileTree(s: Fs, d: nat, name: Name)
    requires Tree(s) && Attached(s) && Enabled(s, Unlink(d, name)) && !s.nodes[s.nodes[d].ents[name]].isDir
    ensures Tree(Step(s, Unlink(d, name))) && Attached(Step(s, Unlink(d, name)))
  {
    hide Counts, Holds;
    var i := s.nodes[d].ents[name];
    var t := Step(s, Unlink(d, name));
    forall x: nat, n: Name, j: nat
      ensures Holds(s, x, n, j) <==> Holds(t, x, n, j) || (x == d && n == name && j == i)
    {
      UnlinkedFileAt(s, d, name, x, n, j);
    }
    StillAttached(s, t);
  }

  lemma {:induction false} UnlinkedLess(s: Fs, d: nat, name: Name, x: nat, n: Name, j: nat)
    requires Enabled(s, Unlink(d, name)) && Counts(Step(s, Unlink(d, name)), x, n, j)
    ensures Counts(s, x, n, j)
  {
  }

  lemma {:induction false} UnlinkedNode(s: Fs, d: nat, name: Name, j: nat)
    requires Enabled(s, Unlink(d, name)) && j in s.nodes && NodeOk(s, j)
    ensures j in Step(s, Unlink(d, name)).nodes && NodeOk(Step(s, Unlink(d, name)), j)
    ensures Step(s, Unlink(d, name)).nodes[j].isDir == s.nodes[j].isDir
  {
  }

  lemma {:induction false} UnlinkedClosed(s: Fs, d: nat, name: Name)
    requires Closed(s) && Enabled(s, Unlink(d, name))
    ensures Closed(Step(s, Unlink(d, name)))
  {
    var t := Step(s, Unlink(d, name));
    assert t.nodes.Keys == s.nodes.Keys && t.pending == s.pending;
    hide Counts, NodeOk, Step, Enabled;
    forall x: nat, n: Name, j: nat | Counts(t, x, n, j)
      ensures j in t.nodes
    {
      UnlinkedLess(s, d, name, x, n, j);
    }
    forall j | j in t.nodes
      ensures NodeOk(t, j) && t.nodes[j].isDir == s.nodes[j].isDir
    {
      UnlinkedNode(s, d, name, j);
    }
  }

  lemma {:induction false} UnlinkedRemoved(s: Fs, d: nat, name: Name)
    requires RemovedDirs(s) && Enabled(s, Unlink(d, name))
    ensures RemovedDirs(Step(s, Unlink(d, name)))
  {
  }

  lemma {:induction false} UnlinkedDir(s: Fs, d: nat, name: Name)
    requires Tree(s) && Enabled(s, Unlink(d, name)) && s.nodes[s.nodes[d].ents[name]].isDir
    ensures var i := s.nodes[d].ents[name];
            && DOTDOT in s.nodes[i].ents && s.nodes[i].ents[DOTDOT] == d && i != d && i != ROOT && i !in s.removed
            && forall x: nat, n: Name :: Holds(s, x, n, i) <==> x == d && n == name
  {
    var i := s.nodes[d].ents[name];
    assert Holds(s, d, name, i);
  }

  lemma {:induction false} UnlinkedDirAt(s: Fs, d: nat, name: Name, x: nat, n: Name, j: nat)
    requires Tree(s) && Enabled(s, Unlink(d, name)) && s.nodes[s.nodes[d].ents[name]].isDir
    ensures var i := s.nodes[d].ents[name];
            var t := Step(s, Unlink(d, name));
            && (Counts(s, x, n, j) <==>
                Counts(t, x, n, j) || (x == d && n == name && j == i) || (x == i && n == DOTDOT && j == d))
            && (Holds(s, x, n, j) <==> Holds(t, x, n, j) || (x == d && n == name && j == i))
            && !Counts(t, d, name, j) && !Counts(t, i, DOTDOT, j) && !Holds(t, d, name, j)
  {
    UnlinkedDir(s, d, name);
    hide Tree;
  }

  lemma {:induction false} UnlinkedDirCounted(s: Fs, d: nat, name: Name)
    requires EnoughLinks(s) && Tree(s) && Enabled(s, Unlink(d, name)) && s.nodes[s.nodes[d].ents[name]].isDir
    ensures SameExcess(s, Step(s, Unlink(d, name)))
  {
    hide Counts, Refs, Tree, Holds;
    var i := s.nodes[d].ents[name];
    var t := Step(s, Unlink(d, name));
    UnlinkedDir(s, d, name);
    forall j | j in t.nodes
      ensures Excess(t, j) == Excess(s, j)
    {
      forall x: nat, n: Name
        ensures Counts(s, x, n, j) <==>
                Counts(t, x, n, j) || (x == d && n == name && j == i) || (x == i && n == DOTDOT && j == d)
      {
        UnlinkedDirAt(s, d, name, x, n, j);
      }
      UnlinkedDirAt(s, d, name, d, name, j);
      if j == i {
        RefsPlus(t, s, j, d, name);
      } else if j == d {
        RefsPlus(t, s, j, i, DOTDOT);
      } else {
        RefsSame(s, t, j);
      }
    }
  }

  lemma {:induction false} UnlinkedDirTree(s: Fs, d: nat, name: Name)
    requires Tree(s) && Attached(s) && Enabled(s, Unlink(d, name)) && s.nodes[s.nodes[d].ents[name]].isDir
    ensures Tree(Step(s, Unlink(d, name))) && Attached(Step(s, Unlink(d, name)))
  {
    hide Holds, Counts;
    var i := s.nodes[d].ents[name];
    var t := Step(s, Unlink(d, name));
    UnlinkedDir(s, d, name);
    forall x: nat, n: Name, j: nat
      ensures Holds(s, x, n, j) <==> Holds(t, x, n, j) || (x == d && n == name && j == i)
      ensures Holds(t, x, n, j) ==> j != i
    {
      UnlinkedDirAt(s, d, name, x, n, j);
      UnlinkedDirAt(s, d, name, d, name, j);
    }
    StillAttached(s, t);
  }

  lemma {:induction false} UnlinkKeeps(s: Fs, d: nat, name: Name)
    requires Sane(s) && Enabled(s, Unlink(d, name))
    ensures Sane(Step(s, Unlink(d, name))) && SameExcess(s, Step(s, Unlink(d, name)))
  {
    hide EnoughLinks, SameExcess, Tree, Attached, Closed, RemovedDirs, Step;
    UnlinkedClosed(s, d, name);
    UnlinkedRemoved(s, d, name);
    if s.nodes[s.nodes[d].ents[name]].isDir {
      UnlinkedDirCounted(s, d, name);
      UnlinkedDirTree(s, d, name);
    } else {
      UnlinkedFileCounted(s, d, name);
      UnlinkedFileTree(s, d, name);
    }
    SameExcessKeeps(s, Step(s, Unlink(d, name)));
  }

  /** What unlink works on has links: the panic for a count below one is never reached. */
  lemma {:induction false} UnlinkNeverPanics(s: Fs, d: nat, name: Name)
    requires Sane(s) && Enabled(s, Unlink(d, name))
    ensures s.nodes[s.nodes[d].ents[name]].nlink >= 1
  {
    hide Tree, Attached, Closed;
    var i := s.nodes[d].ents[name];
    RefsSome(s, i, d, name);
    assert Excess(s, i) >= 0;
  }

  // ---------------------------------------------------------------- freeing

  /** A directory without links is a removed one. */
  lemma {:induction false} FreeIsRemoved(s: Fs, i: nat)
    requires Sane(s) && Enabled(s, Free(i))
    ensures s.nodes[i].isDir ==> i in s.removed
    ensures i != ROOT && s.pending[i] == 0
    ensures forall d: nat, n: Name :: !Counts(s, d, n, i)
  {
    assert Excess(s, i) >= 0;
    RefsNone(s, i);
    if s.nodes[i].isDir && i !in s.removed {
      if i == ROOT {
        assert Counts(s, ROOT, DOTDOT, ROOT);
      } else {
        var n :| Holds(s, s.nodes[i].ents[DOTDOT], n, i);
        assert Counts(s, s.nodes[i].ents[DOTDOT], n, i);
      }
    }
  }

  lemma {:induction false} FreeAt(s: Fs, i: nat, d: nat, n: Name, j: nat)
    requires i in s.nodes && s.nodes[i].nlink == 0
    ensures var t := Step(s, Free(i));
            (Counts(t, d, n, j) <==> Counts(s, d, n, j) && d != i) && (Holds(t, d, n, j) <==> Holds(s, d, n, j) && d != i)
  {
  }

  /** The entries of a directory to be freed that count are those beside the dots. */
  lemma {:induction false} FreedEntries(s: Fs, i: nat, n: Name, j: nat)
    requires Sane(s) && Enabled(s, Free(i))
    ensures Counts(s, i, n, j) <==> Holds(s, i, n, j)
    ensures Counts(s, i, n, j) ==> LosesEntries(s, Free(i)) && j in s.nodes && j != i
  {
    FreeIsRemoved(s, i);
    hide EnoughLinks, Tree, Attached;
    assert NodeOk(s, i);
  }

  lemma {:induction false} RefsFewer(s: Fs, t: Fs, i: nat)
    requires forall d: nat, n: Name :: Counts(t, d, n, i) ==> Counts(s, d, n, i)
    ensures Refs(t, i) <= Refs(s, i) && |Refs(t, i)| <= |Refs(s, i)|
    ensures (exists d: nat, n: Name :: Counts(s, d, n, i) && !Counts(t, d, n, i)) ==> |Refs(t, i)| < |Refs(s, i)|
  {
    hide Counts;
    forall d: nat, n: Name | (d, n) in Refs(t, i)
      ensures (d, n) in Refs(s, i)
    {
      RefsAre(s, i, d, n);
      RefsAre(t, i, d, n);
    }
    var gone := Refs(s, i) - Refs(t, i);
    assert Refs(s, i) == Refs(t, i) + gone;
    if d: nat, n: Name :| Counts(s, d, n, i) && !Counts(t, d, n, i) {
      RefsAre(s, i, d, n);
      RefsAre(t, i, d, n);
      assert (d, n) in gone;
    }
  }

  /** What is left has no fewer links beyond its entries than before; more, if an entry was lost. */
  lemma {:induction false} FreedExcess(s: Fs, i: nat, t: Fs, j: nat)
    requires Sane(s) && Enabled(s, Free(i)) && t == Step(s, Free(i)) && j in s.nodes && j in t.nodes
    ensures Excess(t, j) >= Excess(s, j)
    ensures Excess(t, j) == Excess(s, j) <==> forall n: Name :: !Holds(s, i, n, j)
  {
    hide Sane;
    forall d: nat, n: Name
      ensures Counts(t, d, n, j) <==> Counts(s, d, n, j) && d != i
      ensures Counts(s, i, n, j) <==> Holds(s, i, n, j)
    {
      FreeAt(s, i, d, n, j);
      FreedEntries(s, i, n, j);
    }
    hide Counts, Refs, Holds;
    RefsFewer(s, t, j);
    if n: Name :| Holds(s, i, n, j) {
      assert Counts(s, i, n, j) && !Counts(t, i, n, j);
    } else {
      RefsSame(s, t, j);
    }
  }

  /** A directory without links has no directories in it. */
  lemma {:induction false} FreedChild(s: Fs, i: nat, n: Name, j: nat)
    requires Sane(s) && Enabled(s, Free(i)) && Holds(s, i, n, j) && j in s.nodes
    ensures !s.nodes[j].isDir
  {
    FreeIsRemoved(s, i);
    hide Closed, EnoughLinks, Attached;
    assert s.nodes[j].isDir ==> Counts(s, j, DOTDOT, i);
  }

  lemma {:induction false} FreedTree(s: Fs, i: nat)
    requires Sane(s) && Enabled(s, Free(i))
    ensures Tree(Step(s, Free(i))) && Attached(Step(s, Free(i)))
  {
    hide Holds, Closed, EnoughLinks, RemovedDirs, Counts;
    FreeIsRemoved(s, i);
    var t := Step(s, Free(i));
    forall j: nat, n: Name | Holds(s, i, n, j) && j in s.nodes
      ensures !s.nodes[j].isDir
    {
      FreedChild(s, i, n, j);
    }
    forall d: nat, n: Name, j: nat
      ensures Holds(t, d, n, j) <==> Holds(s, d, n, j) && d != i
    {
      FreeAt(s, i, d, n, j);
    }
    StillAttached(s, t);
  }

  lemma {:induction false} FreedClosed(s: Fs, i: nat)
    requires Sane(s) && Enabled(s, Free(i))
    ensures Closed(Step(s, Free(i))) && RemovedDirs(Step(s, Free(i)))
  {
    hide Counts, EnoughLinks, Tree, Attached;
    FreeIsRemoved(s, i);
    var t := Step(s, Free(i));
    forall d: nat, n: Name, j: nat
      ensures Counts(t, d, n, j) <==> Counts(s, d, n, j) && d != i
    {
      FreeAt(s, i, d, n, j);
    }
    forall j | j in t.nodes
      ensures NodeOk(t, j)
    {
      assert NodeOk(s, j);
    }
  }

  lemma {:induction false} FreeKeeps(s: Fs, i: nat)
    requires Sane(s) && Enabled(s, Free(i))
    ensures Sane(Step(s, Free(i)))
  {
    hide Excess, Tree, Attached, Closed, RemovedDirs;
    FreedTree(s, i);
    FreedClosed(s, i);
    var t := Step(s, Free(i));
    forall j | j in t.nodes
      ensures Excess(t, j) >= 0
    {
      FreedExcess(s, i, t, j);
      assert Excess(s, j) >= 0;
    }
  }

  lemma {:induction false} FreeLosesNothing(s: Fs, i: nat)
    requires Sane(s) && Enabled(s, Free(i)) && !LosesEntries(s, Free(i))
    ensures SameExcess(s, Step(s, Free(i)))
  {
    var t := Step(s, Free(i));
    forall j | j in t.nodes
      ensures Excess(t, j) == Excess(s, j)
    {
      forall n: Name
        ensures !Holds(s, i, n, j)
      {
        FreedEntries(s, i, n, j);
      }
      hide Holds, Counts, Sane;
      FreedExcess(s, i, t, j);
    }
  }

  /** What a freed directory still named has a link that nothing accounts for. */
  lemma {:induction false} FreeLoses(s: Fs, i: nat) returns (j: nat)
    requires Sane(s) && Enabled(s, Free(i)) && LosesEntries(s, Free(i))
    ensures j in s.nodes && j != i && Excess(Step(s, Free(i)), j) > 0
  {
    assert NodeOk(s, i);
    var n :| n in s.nodes[i].ents && n !in {DOT, DOTDOT};
    j := s.nodes[i].ents[n];
    assert Holds(s, i, n, j);
    hide Tree, Attached, Closed;
    FreedEntries(s, i, n, j);
    FreedExcess(s, i, Step(s, Free(i)), j);
    assert Excess(s, j) >= 0;
  }

  // ---------------------------------------------------------------- runs

  lemma {:induction false} KeepsBut(s: Fs, e: Event)
    requires Sane(s) && Enabled(s, e) && !e.Free?
    ensures Sane(Step(s, e)) && SameExcess(s, Step(s, e))
  {
    hide Sane, SameExcess, Step;
    match e {
      case LinkStart(i) => LinkStartKeeps(s, i);
      case LinkFinish(i, dp, name) =>
        if dp.None? || name in s.nodes[dp.value].ents {
          LinkFailKeeps(s, i, dp, name);
        } else {
          LinkAddKeeps(s, i, dp.value, name);
        }
      case Unlink(d, name) => UnlinkKeeps(s, d, name);
      case Create(d, name, i, isDir) =>
        if isDir { CreateDirKeeps(s, d, name, i); } else { CreateFileKeeps(s, d, name, i); }
    }
  }

  /** Every step keeps the tree, and enough links for the entries there are. */
  lemma {:induction false} SaneStep(s: Fs, e: Event)
    requires Sane(s) && Enabled(s, e)
    ensures Sane(Step(s, e))
  {
    hide Sane, SameExcess, Step;
    if e.Free? {
      FreeKeeps(s, e.i);
    } else {
      KeepsBut(s, e);
    }
  }

  /** A step keeps the link counts exactly unless it frees a directory that has entries beside the
      dots. */
  lemma {:induction false} LinksStep(s: Fs, e: Event)
    requires Sane(s) && LinksCounted(s) && Enabled(s, e)
    ensures LinksCounted(Step(s, e)) <==> !LosesEntries(s, e)
  {
    var t := Step(s, e);
    hide Sane, SameExcess, Step, Refs;
    if LosesEntries(s, e) {
      var j := FreeLoses(s, e.i);
      assert j in t.nodes by { assert t == Step(s, Free(e.i)); FreedNodes(s, e.i); }
      assert t.nodes[j].nlink != |Refs(t, j)| + t.pending[j];
    } else {
      if e.Free? { FreeLosesNothing(s, e.i); } else { KeepsBut(s, e); }
      SameExcessKeeps(s, t);
    }
  }

  lemma {:induction false} FreedNodes(s: Fs, i: nat)
    requires Enabled(s, Free(i))
    ensures Step(s, Free(i)).nodes.Keys == s.nodes.Keys - {i}
  {
  }

  /** Links that nothing accounts for stay. */
  lemma {:induction false} ExcessStays(s: Fs, e: Event, j: nat)
    requires Sane(s) && Enabled(s, e) && j in s.nodes && Excess(s, j) > 0
    ensures j in Step(s, e).nodes && Excess(Step(s, e), j) > 0
  {
    hide Sane, Refs;
    if e.Free? {
      assert e == Free(e.i);
      FreedExcess(s, e.i, Step(s, e), j);
    } else {
      KeepsBut(s, e);
    }
  }

  /** Any run. */
  ghost predicate Run(s: Fs, es: seq<Event>, t: Fs)
    decreases |es|
  {
    if es == [] then t == s else Enabled(s, es[0]) && Run(Step(s, es[0]), es[1..], t)
  }

  lemma {:induction false} RunAppend(s: Fs, es: seq<Event>, t: Fs, fs: seq<Event>, u: Fs)
    requires Run(s, es, t) && Run(t, fs, u)
    ensures Run(s, es + fs, u)
    decreases |es|
  {
    hide Enabled, Step;
    var all := es + fs;
    if es == [] {
      assert all == fs;
    } else {
      RunAppend(Step(s, es[0]), es[1..], t, fs, u);
      assert all[0] == es[0] && all[1..] == es[1..] + fs;
    }
  }

  lemma {:induction false} RunStep(s: Fs, e: Event)
    requires Enabled(s, e)
    ensures Run(s, [e], Step(s, e))
  {
    hide Enabled, Step;
    var es := [e];
    assert es[0] == e && es[1..] == [];
  }

  /** No step of the run frees a directory that has entries. */
  ghost predicate NothingLost(s: Fs, es: seq<Event>)
    decreases |es|
  {
    es != [] && Enabled(s, es[0]) ==> !LosesEntries(s, es[0]) && NothingLost(Step(s, es[0]), es[1..])
  }

  /** A new file system: the root directory. */
  function Made(): (s: Fs) {
    Fs(map[ROOT := Inode(true, 1, map[DOT := ROOT, DOTDOT := ROOT])], {}, multiset{})
  }

  lemma {:induction false} SaneMade()
    ensures Sane(Made()) && LinksCounted(Made()) && RemovedEmpty(Made())
  {
    var s := Made();
    forall d: nat, n: Name, i: nat
      ensures Counts(s, d, n, i) <==> d == ROOT && n == DOTDOT && i == ROOT
      ensures !Holds(s, d, n, i)
    {
      assert DOT != DOTDOT;
    }
    assert (ROOT, DOTDOT) in Refs(s, ROOT);
    assert Refs(s, ROOT) == {(ROOT, DOTDOT)};
    assert NodeOk(s, ROOT);
  }

  lemma {:induction false} RunSane(s: Fs, es: seq<Event>, t: Fs)
    requires Sane(s) && Run(s, es, t)
    ensures Sane(t)
    decreases |es|
  {
    hide Sane, Step;
    if es != [] {
      SaneStep(s, es[0]);
      RunSane(Step(s, es[0]), es[1..], t);
    }
  }

  lemma {:induction false} RunExcess(s: Fs, es: seq<Event>, t: Fs, j: nat)
    requires Sane(s) && Run(s, es, t) && j in s.nodes && Excess(s, j) > 0
    ensures j in t.nodes && Excess(t, j) > 0
    decreases |es|
  {
    hide Sane, Step, Refs;
    if es != [] {
      SaneStep(s, es[0]);
      ExcessStays(s, es[0], j);
      RunExcess(Step(s, es[0]), es[1..], t, j);
    }
  }

  lemma {:induction false} RunLinks(s: Fs, es: seq<Event>, t: Fs)
    requires Sane(s) && LinksCounted(s) && Run(s, es, t)
    ensures LinksCounted(t) <==> NothingLost(s, es)
    decreases |es|
  {
    hide Sane, Step, Refs;
    if es != [] {
      var u := Step(s, es[0]);
      SaneStep(s, es[0]);
      LinksStep(s, es[0]);
      if LinksCounted(u) {
        RunLinks(u, es[1..], t);
      } else {
        var j :| j in u.nodes && u.nodes[j].nlink != |Refs(u, j)| + u.pending[j];
        assert Excess(u, j) > 0 by { SaneExcess(u, j); }
        RunExcess(u, es[1..], t, j);
        assert !LinksCounted(t);
      }
    }
  }

  lemma {:induction false} SaneExcess(s: Fs, j: nat)
    requires Sane(s) && j in s.nodes
    ensures Excess(s, j) >= 0
  {
  }

  /** After any run whatever, the link counts are right if and only if the run freed no directory that
      still had entries; no inode ever has fewer links than entries. */
  lemma {:induction false} LinkCounts(es: seq<Event>, t: Fs)
    requires Run(Made(), es, t)
    ensures LinksCounted(t) <==> NothingLost(Made(), es)
    ensures forall i :: i in t.nodes ==> t.nodes[i].nlink >= |Refs(t, i)| + t.pending[i]
  {
    hide Made, Run, NothingLost;
    SaneMade();
    RunSane(Made(), es, t);
    RunLinks(Made(), es, t);
    assert forall i :: i in t.nodes ==> Excess(t, i) >= 0;
  }

  // ---------------------------------------------------------------- names entered in removed directories

  /** Removed directories stay empty exactly unless a name is entered in one. */
  lemma {:induction false} RemovedStayEmpty(s: Fs, e: Event)
    requires Sane(s) && RemovedEmpty(s) && Enabled(s, e)
    ensures RemovedEmpty(Step(s, e)) <==> !IntoRemoved(s, e)
    ensures !LosesEntries(s, e)
  {
    hide EnoughLinks, Tree, Attached, Closed;
    if e.Free? {
      FreeIsRemoved(s, e.i);
    } else if IntoRemoved(s, e) {
      var d := if e.Create? then e.d else e.dp.value;
      NotDots(s, d, e.name);
      assert e.name in Step(s, e).nodes[d].ents && d in Step(s, e).removed;
    }
  }

  ghost predicate EntersRemoved(s: Fs, es: seq<Event>)
    decreases |es|
  {
    es != [] && Enabled(s, es[0]) && (IntoRemoved(s, es[0]) || EntersRemoved(Step(s, es[0]), es[1..]))
  }

  lemma {:induction false} RunLosesNothing(s: Fs, es: seq<Event>, t: Fs)
    requires Sane(s) && RemovedEmpty(s) && Run(s, es, t) && !EntersRemoved(s, es)
    ensures NothingLost(s, es)
    decreases |es|
  {
    hide Sane, Step, RemovedEmpty;
    if es != [] {
      SaneStep(s, es[0]);
      RemovedStayEmpty(s, es[0]);
      RunLosesNothing(Step(s, es[0]), es[1..], t);
    }
  }

  /** So it is enough that no name is entered in a removed directory. */
  lemma {:induction false} LinkCountsUnlessEntered(es: seq<Event>, t: Fs)
    requires Run(Made(), es, t) && !EntersRemoved(Made(), es)
    ensures LinksCounted(t)
  {
    hide Made, Run, NothingLost, EntersRemoved;
    SaneMade();
    LinkCounts(es, t);
    RunLosesNothing(Made(), es, t);
  }

  // ---------------------------------------------------------------- removed directories

  const D: Name := [100]
  const F: Name := [102]

  /** A directory is made, removed while still open, given a file, and freed. */
  function AfterMkdir(): (s: Fs) {
    Fs(map[ROOT := Inode(true, 2, map[DOT := ROOT, DOTDOT := ROOT, D := 2]),
           2 := Inode(true, 1, map[DOT := 2, DOTDOT := ROOT])], {}, multiset{})
  }

  function AfterRmdir(): (s: Fs) {
    Fs(map[ROOT := Inode(true, 1, map[DOT := ROOT, DOTDOT := ROOT]),
           2 := Inode(true, 0, map[DOT := 2, DOTDOT := ROOT])], {2}, multiset{})
  }

  function AfterCreate(): (s: Fs) {
    Fs(map[ROOT := Inode(true, 1, map[DOT := ROOT, DOTDOT := ROOT]),
           2 := Inode(true, 0, map[DOT := 2, DOTDOT := ROOT, F := 3]),
           3 := Inode(false, 1, map[])], {2}, multiset{})
  }

  function AfterFree(): (s: Fs) {
    Fs(map[ROOT := Inode(true, 1, map[DOT := ROOT, DOTDOT := ROOT]),
           3 := Inode(false, 1, map[])], {}, multiset{})
  }

  lemma {:induction false} Mkdir()
    ensures Enabled(Made(), Create(ROOT, D, 2, true)) && Step(Made(), Create(ROOT, D, 2, true)) == AfterMkdir()
  {
    assert D != DOT && D != DOTDOT;
    var t := Step(Made(), Create(ROOT, D, 2, true));
    assert t.nodes[ROOT].ents == AfterMkdir().nodes[ROOT].ents;
    assert t.nodes == AfterMkdir().nodes;
  }

  lemma {:induction false} Rmdir()
    ensures Enabled(AfterMkdir(), Unlink(ROOT, D)) && Step(AfterMkdir(), Unlink(ROOT, D)) == AfterRmdir()
  {
    assert D != DOT && D != DOTDOT;
    var s := AfterMkdir();
    assert s.nodes[ROOT].ents[D] == 2 && s.nodes[2].ents.Keys == {DOT, DOTDOT};
    var t := Step(s, Unlink(ROOT, D));
    assert t.nodes[ROOT].ents == AfterRmdir().nodes[ROOT].ents;
    assert t.nodes[2].ents == AfterRmdir().nodes[2].ents;
    assert t.nodes == AfterRmdir().nodes;
    assert t.removed == {2};
  }

  lemma {:induction false} CreateInside()
    ensures Enabled(AfterRmdir(), Create(2, F, 3, false)) && IntoRemoved(AfterRmdir(), Create(2, F, 3, false))
    ensures Step(AfterRmdir(), Create(2, F, 3, false)) == AfterCreate()
  {
    assert F != DOT && F != DOTDOT;
    var t := Step(AfterRmdir(), Create(2, F, 3, false));
    assert t.nodes[2].ents == AfterCreate().nodes[2].ents;
    assert t.nodes == AfterCreate().nodes;
  }

  lemma {:induction false} FreeRemoved()
    ensures Enabled(AfterCreate(), Free(2)) && Step(AfterCreate(), Free(2)) == AfterFree()
    ensures LosesEntries(AfterCreate(), Free(2))
  {
    assert F != DOT && F != DOTDOT;
    assert F in AfterCreate().nodes[2].ents;
    var t := Step(AfterCreate(), Free(2));
    assert t.nodes == AfterFree().nodes;
    assert t.removed == {};
  }

  /** After these four steps a file has one link and no entry: the code does not exclude them. */
  lemma {:induction false} RemovedParentLosesLink()
    ensures var s1 := AfterMkdir();
            var s2 := AfterRmdir();
            var s3 := AfterCreate();
            var s4 := AfterFree();
            && Enabled(Made(), Create(ROOT, D, 2, true)) && s1 == Step(Made(), Create(ROOT, D, 2, true))
            && Enabled(s1, Unlink(ROOT, D)) && s2 == Step(s1, Unlink(ROOT, D))
            && Enabled(s2, Create(2, F, 3, false)) && s3 == Step(s2, Create(2, F, 3, false))
            && Enabled(s3, Free(2)) && s4 == Step(s3, Free(2))
            && LosesEntries(s3, Free(2))
            && 3 in s4.nodes && s4.nodes[3].nlink == 1 && Refs(s4, 3) == {} && s4.pending == multiset{}
  {
    hide Enabled, Step;
    Mkdir();
    Rmdir();
    CreateInside();
    FreeRemoved();
    var t := AfterFree();
    forall d: nat, n: Name
      ensures !Counts(t, d, n, 3)
    {
    }
    NoRefs(t, 3);
  }

  // ---------------------------------------------------------------- parents that are gone

  /** A directory in a directory is removed while still open; then so is its parent, which is freed. */
  function TwoDeep(): (s: Fs) {
    Fs(map[ROOT := Inode(true, 2, map[DOT := ROOT, DOTDOT := ROOT, D := 2]),
           2 := Inode(true, 2, map[DOT := 2, DOTDOT := ROOT, F := 3]),
           3 := Inode(true, 1, map[DOT := 3, DOTDOT := 2])], {}, multiset{})
  }

  function InnerRemoved(): (s: Fs) {
    Fs(map[ROOT := Inode(true, 2, map[DOT := ROOT, DOTDOT := ROOT, D := 2]),
           2 := Inode(true, 1, map[DOT := 2, DOTDOT := ROOT]),
           3 := Inode(true, 0, map[DOT := 3, DOTDOT := 2])], {3}, multiset{})
  }

  function BothRemoved(): (s: Fs) {
    Fs(map[ROOT := Inode(true, 1, map[DOT := ROOT, DOTDOT := ROOT]),
           2 := Inode(true, 0, map[DOT := 2, DOTDOT := ROOT]),
           3 := Inode(true, 0, map[DOT := 3, DOTDOT := 2])], {2, 3}, multiset{})
  }

  lemma {:induction false} MkdirInside()
    ensures Enabled(AfterMkdir(), Create(2, F, 3, true)) && Step(AfterMkdir(), Create(2, F, 3, true)) == TwoDeep()
  {
    assert F != DOT && F != DOTDOT;
    var t := Step(AfterMkdir(), Create(2, F, 3, true));
    assert t.nodes[2].ents == TwoDeep().nodes[2].ents;
    assert t.nodes == TwoDeep().nodes;
  }

  lemma {:induction false} RmdirInside()
    ensures Enabled(TwoDeep(), Unlink(2, F)) && Step(TwoDeep(), Unlink(2, F)) == InnerRemoved()
  {
    assert F != DOT && F != DOTDOT;
    var s := TwoDeep();
    assert s.nodes[2].ents[F] == 3 && s.nodes[3].ents.Keys == {DOT, DOTDOT};
    var t := Step(s, Unlink(2, F));
    assert t.nodes[2].ents == InnerRemoved().nodes[2].ents;
    assert t.nodes == InnerRemoved().nodes;
    assert t.removed == {3};
  }

  lemma {:induction false} RmdirOutside()
    ensures Enabled(InnerRemoved(), Unlink(ROOT, D)) && Step(InnerRemoved(), Unlink(ROOT, D)) == BothRemoved()
  {
    assert D != DOT && D != DOTDOT;
    var s := InnerRemoved();
    assert s.nodes[ROOT].ents[D] == 2 && s.nodes[2].ents.Keys == {DOT, DOTDOT};
    var t := Step(s, Unlink(ROOT, D));
    assert t.nodes[ROOT].ents == BothRemoved().nodes[ROOT].ents;
    assert t.nodes == BothRemoved().nodes;
    assert t.removed == {2, 3};
  }

  /** After these five steps the link counts are right, nothing was lost, and still a directory names a
      parent that does not exist: a lookup that goes on from there panics. */
  lemma {:induction false} ParentGone() returns (es: seq<Event>, t: Fs)
    ensures Run(Made(), es, t) && LinksCounted(t)
    ensures 3 in t.nodes && DOTDOT in t.nodes[3].ents && t.nodes[3].ents[DOTDOT] !in t.nodes
  {
    hide Enabled, Step, LinksCounted, Sane, Run, Made, AfterMkdir, TwoDeep, InnerRemoved, BothRemoved;
    Mkdir();
    MkdirInside();
    RmdirInside();
    RmdirOutside();
    FreeParent();
    SaneMade();
    OneMoreStep(Made(), [], Made(), Create(ROOT, D, 2, true));
    es := [] + [Create(ROOT, D, 2, true)];
    OneMoreStep(Made(), es, AfterMkdir(), Create(2, F, 3, true));
    es := es + [Create(2, F, 3, true)];
    OneMoreStep(Made(), es, TwoDeep(), Unlink(2, F));
    es := es + [Unlink(2, F)];
    OneMoreStep(Made(), es, InnerRemoved(), Unlink(ROOT, D));
    es := es + [Unlink(ROOT, D)];
    OneMoreStep(Made(), es, BothRemoved(), Free(2));
    es := es + [Free(2)];
    t := Step(BothRemoved(), Free(2));
  }

  lemma {:induction false} OneMoreStep(s: Fs, es: seq<Event>, t: Fs, e: Event)
    requires (es == [] && s == t) || Run(s, es, t)
    requires Sane(t) && LinksCounted(t) && Enabled(t, e) && !LosesEntries(t, e)
    ensures Run(s, es + [e], Step(t, e)) && Sane(Step(t, e)) && LinksCounted(Step(t, e))
  {
    hide Enabled, Step, LinksCounted, Sane, LosesEntries;
    SaneStep(t, e);
    LinksStep(t, e);
    RunStep(t, e);
    RunAppend(s, es, t, [e], Step(t, e));
  }

  lemma {:induction false} FreeParent()
    ensures Enabled(BothRemoved(), Free(2)) && !LosesEntries(BothRemoved(), Free(2))
    ensures var t := Step(BothRemoved(), Free(2));
            3 in t.nodes && t.nodes[3].isDir && DOTDOT in t.nodes[3].ents && t.nodes[3].ents[DOTDOT] !in t.nodes
  {
    assert BothRemoved().nodes[2].ents.Keys == {DOT, DOTDOT};
  }
}
