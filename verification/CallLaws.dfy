/** What programs may rely on about the file system calls (sysfile.c): when each of them succeeds, fails or panics,
    and what paths lead to afterwards. */
module CallLaws {

  import opened Options
  import opened Blocks
  import opened Dirents
  import opened Namei
  import opened Links
  import opened SysFile
  import opened Calls
  import opened Lookups

  // ---------------------------------------------------------------- walks in a larger file system

  /** `ms` has all the inodes and entries of `ns`, and maybe more. */
  ghost predicate Extends(ns: Nodes, ms: Nodes) {
    forall i :: i in ns ==> i in ms && NodeExtends(AbsNode(ns[i]), AbsNode(ms[i]))
  }

  ghost predicate NodeExtends(x: Inode, y: Inode) {
    x.isDir == y.isDir && forall n :: n in x.ents ==> n in y.ents && y.ents[n] == x.ents[n]
  }

  lemma {:induction false} WalkExtends(ns: Nodes, ms: Nodes, i: nat, es: seq<Name>)
    requires Extends(ns, ms) && Walk(ns, i, es).Reached?
    ensures Walk(ms, i, es) == Walk(ns, i, es)
    decreases |es|
  {
    hide AsMap, Trunc;
    if es != [] {
      assert NodeExtends(AbsNode(ns[i]), AbsNode(ms[i]));
      WalkExtends(ns, ms, AsMap(ns[i].content)[Trunc(es[0])], es[1..]);
    }
  }

  /** The walk to the parent of a path, and the last step. */
  lemma {:induction false} WalkLast(ns: Nodes, i: nat, es: seq<Name>)
    requires es != []
    ensures var d := Walk(ns, i, es[..|es| - 1]);
            Walk(ns, i, es) == if d.Reached? then Walk(ns, d.i, [es[|es| - 1]]) else d
    decreases |es|
  {
    hide AsMap, Trunc;
    var n := |es| - 1;
    if n == 0 {
      assert es == [es[0]] && es[..0] == [];
    } else if i in ns && IsDirectory(ns, i) && Trunc(es[0]) in AsMap(ns[i].content) {
      WalkLast(ns, AsMap(ns[i].content)[Trunc(es[0])], es[1..]);
      assert es[..n][0] == es[0] && es[..n][1..] == es[1..][..n - 1];
    }
  }

  /** A path leads to inode `x` if its parent leads to `d` and that names `x`. */
  lemma {:induction false} PathLast(m: Moment, path: Name, cwd: nat)
    requires PathTo(m, path, cwd, true).Reached?
    ensures Elems(path) != []
    ensures var d := PathTo(m, path, cwd, true).i;
            && IsDirectory(m.nodes, d)
            && PathTo(m, path, cwd, false) ==
               if LastName(path) in AsMap(m.nodes[d].content) then Reached(AsMap(m.nodes[d].content)[LastName(path)]) else Missing
  {
    hide AsMap, Elems, Trunc;
    var es, i := Elems(path), Start(path, cwd);
    WalkLast(m.nodes, i, es);
    var d := PathTo(m, path, cwd, true).i;
    var last := [es[|es| - 1]];
    assert last[1..] == [];
  }

  lemma {:induction false} PathExtends(m: Moment, n: Moment, path: Name, cwd: nat, parent: bool)
    requires Extends(m.nodes, n.nodes) && PathTo(m, path, cwd, parent).Reached?
    ensures PathTo(n, path, cwd, parent) == PathTo(m, path, cwd, parent)
  {
    hide AsMap, Elems, Trunc;
    var es, i := Elems(path), Start(path, cwd);
    if parent {
      WalkExtends(m.nodes, n.nodes, i, es[..|es| - 1]);
      var d := PathTo(m, path, cwd, true).i;
      assert NodeExtends(AbsNode(m.nodes[d]), AbsNode(n.nodes[d]));
    } else {
      WalkExtends(m.nodes, n.nodes, i, es);
    }
  }

  // ---------------------------------------------------------------- link

  /** An entry for `name` can be made in `d`. */
  ghost predicate Enterable(m: Moment, d: nat, name: Name) {
    d in m.nodes && name !in AsMap(m.nodes[d].content) && !Packed(m.nodes[d].content)
  }

  /** sys_link() succeeds exactly if the old path leads to an inode that is no directory and the new one to a place
      in a directory where there is no such name yet; it panics exactly if a lookup does, or the new entry does not
      fit; and it fails otherwise. */
  lemma {:induction false} LinkReplies(m: Moment, from: Name, to: Name, cwd: nat, ninodes: nat)
    ensures var a, ip, dp := ReplyTo(m, By(DoLink(from, to), cwd), ninodes), PathTo(m, from, cwd, false), PathTo(m, to, cwd, true);
            var file := ip.Reached? && ip.i in m.nodes && m.nodes[ip.i].typ != DirType;
            && (a == Done <==> file && dp.Reached? && Enterable(m, dp.i, LastName(to)))
            && (a == Reply.Panics <==>
                  || ip.NoType? || (ip.Reached? && ip.i !in m.nodes)
                  || (file && (dp.NoType? || (dp.Reached? && dp.i in m.nodes && LastName(to) !in AsMap(m.nodes[dp.i].content)
                                              && Packed(m.nodes[dp.i].content)))))
            && (a == Done || a == Failed || a == Reply.Panics)
  {
    hide AsMap, Elems, Resolve, LastName, Packed;
  }

  lemma {:induction false} RunTwo(s: Fs, a: Event, b: Event, t: Fs)
    requires Run(s, [a] + [b], t)
    ensures Enabled(s, a) && Enabled(Step(s, a), b) && t == Step(Step(s, a), b)
  {
    hide Enabled, Step;
    var es := [a] + [b];
    assert es[0] == a && es[1..] == [b];
    assert Run(Step(s, a), [b], t);
    RunOne(Step(s, a), b, t);
  }

  /** Only inode `i`, which has one link more, and directory `d`, which has one name more, are different. */
  ghost predicate LinkMade(m: Moment, n: Moment, i: nat, d: nat, name: Name) {
    && n.nodes.Keys == m.nodes.Keys && i in m.nodes && d in m.nodes && i != d
    && forall j :: j in m.nodes ==>
         var x := AbsNode(m.nodes[j]);
         AbsNode(n.nodes[j]) == if j == i then x.(nlink := x.nlink + 1) else if j == d then x.(ents := x.ents[name := i]) else x
  }

  lemma {:induction false} LinkMakes(m: Moment, n: Moment, i: nat, d: nat, name: Name)
    requires Run(FsAt(m), [LinkStart(i)] + [LinkFinish(i, Some(d), name)], FsAt(n))
    requires d in m.nodes && IsDirectory(m.nodes, d) && name !in AsMap(m.nodes[d].content)
    ensures LinkMade(m, n, i, d, name) && n.removed == m.removed
  {
    hide AsMap;
    RunTwo(FsAt(m), LinkStart(i), LinkFinish(i, Some(d), name), FsAt(n));
    hide Run;
    assert Abs(m.nodes)[d] == AbsNode(m.nodes[d]) && Abs(m.nodes)[i] == AbsNode(m.nodes[i]);
    forall j | j in m.nodes
      ensures j in n.nodes && Abs(n.nodes)[j] == AbsNode(n.nodes[j]) && Abs(m.nodes)[j] == AbsNode(m.nodes[j])
    {
      assert j in FsAt(n).nodes;
    }
  }

  lemma {:induction false} LinkExtends(m: Moment, n: Moment, i: nat, d: nat, name: Name)
    requires LinkMade(m, n, i, d, name) && name !in AbsNode(m.nodes[d]).ents
    ensures Extends(m.nodes, n.nodes)
  {
    hide AbsNode;
  }

  /** After a link has been made, both paths lead to the inode that the old one led to; it has one link more, the
      new path led nowhere before, and nothing else has changed. */
  lemma {:induction false} LinkWorks(m: Moment, n: Moment, from: Name, to: Name, cwd: nat, ninodes: nat)
    requires var q := By(DoLink(from, to), cwd); ReplyTo(m, q, ninodes) == Done && Led(m, q, ninodes, n)
    ensures PathTo(m, from, cwd, false).Reached? && PathTo(m, to, cwd, true).Reached?
    ensures var i, d := PathTo(m, from, cwd, false).i, PathTo(m, to, cwd, true).i;
            && PathTo(m, to, cwd, false) == Missing
            && PathTo(n, from, cwd, false) == Reached(i) && PathTo(n, to, cwd, false) == Reached(i)
            && PathTo(n, to, cwd, true) == Reached(d)
            && i in m.nodes && i in n.nodes && n.nodes[i].nlink == m.nodes[i].nlink + 1
            && LinkMade(m, n, i, d, LastName(to)) && n.refs == m.refs && n.removed == m.removed
  {
    hide AsMap, Elems, Resolve, LastName, Packed, Run, Walk, LinkMade, Extends;
    LinkReplies(m, from, to, cwd, ninodes);
    var i, d, name := PathTo(m, from, cwd, false).i, PathTo(m, to, cwd, true).i, LastName(to);
    PathLast(m, to, cwd);
    LinkMakes(m, n, i, d, name);
    LinkMadeAt(m, n, i, d, name);
    LinkExtends(m, n, i, d, name);
    PathExtends(m, n, from, cwd, false);
    PathExtends(m, n, to, cwd, true);
    PathLast(n, to, cwd);
  }

  lemma {:induction false} LinkMadeAt(m: Moment, n: Moment, i: nat, d: nat, name: Name)
    requires LinkMade(m, n, i, d, name) && IsDirectory(m.nodes, d)
    ensures i in m.nodes && i in n.nodes && n.nodes[i].nlink == m.nodes[i].nlink + 1
    ensures IsDirectory(n.nodes, d) && AsMap(n.nodes[d].content) == AsMap(m.nodes[d].content)[name := i]
    ensures AbsNode(m.nodes[d]).ents == AsMap(m.nodes[d].content)
  {
    hide AsMap;
    assert AbsNode(n.nodes[d]).isDir;
    assert AbsNode(n.nodes[i]).nlink == AbsNode(m.nodes[i]).nlink + 1;
  }

  // ---------------------------------------------------------------- open

  /** sys_open() without O_CREATE gives the inode the path leads to, if there is one and it is no directory opened
      for writing, and takes a reference to it; nothing else changes. */
  lemma {:induction false} OpenReplies(m: Moment, path: Name, write: bool, cwd: nat, ninodes: nat)
    ensures var a, ip := ReplyTo(m, By(DoOpen(path, write), cwd), ninodes), PathTo(m, path, cwd, false);
            && (forall i :: a == Opened(i) <==> ip == Reached(i) && i in m.nodes && !(m.nodes[i].typ == DirType && write))
            && (a == Reply.Panics <==> ip.NoType? || (ip.Reached? && ip.i !in m.nodes))
            && (a == Failed || a == Reply.Panics || a.Opened?)
  {
    hide Elems, Resolve;
  }

  lemma {:induction false} OpenWorks(m: Moment, n: Moment, path: Name, write: bool, cwd: nat, ninodes: nat)
    requires var q := By(DoOpen(path, write), cwd); ReplyTo(m, q, ninodes) != Reply.Panics && Led(m, q, ninodes, n)
    ensures n.nodes == m.nodes
    ensures var a := ReplyTo(m, By(DoOpen(path, write), cwd), ninodes);
            n.refs == if a.Opened? then m.refs + multiset{a.i} else m.refs
  {
    hide Elems, Resolve, Run;
  }

  // ---------------------------------------------------------------- create

  /** `i` is the lowest inode number not in use. */
  ghost predicate Lowest(ns: Nodes, ninodes: nat, i: nat) {
    1 <= i < ninodes && i !in ns && forall j :: 1 <= j < i ==> j in ns
  }

  lemma {:induction false} SpareLowest(ns: Nodes, from: nat, ninodes: nat)
    requires 1 <= from && forall j :: 1 <= j < from ==> j in ns
    ensures var r := Spare(ns, from, ninodes);
            if r.Some? then Lowest(ns, ninodes, r.value) else forall j :: 1 <= j < ninodes ==> j in ns
    decreases ninodes - from
  {
    if from < ninodes && from in ns {
      SpareLowest(ns, from + 1, ninodes);
    }
  }

  /** create() gives the file that is there if a file is asked for, or the lowest inode not in use if the name is
      new; it panics exactly if the lookup does, the entry is of an inode that is gone, or there is no inode or no
      room for the entry. */
  lemma {:induction false} CreateReplies(m: Moment, path: Name, typ: FileType, cwd: nat, ninodes: nat)
    ensures var a, dp, name := ReplyTo(m, By(DoCreate(path, typ), cwd), ninodes), PathTo(m, path, cwd, true), LastName(path);
            && (forall i :: a == Opened(i) <==>
                  && dp.Reached?
                  && ((PathTo(m, path, cwd, false) == Reached(i) && i in m.nodes && typ == FileType && m.nodes[i].typ == FileType)
                      || (Enterable(m, dp.i, name) && Lowest(m.nodes, ninodes, i))))
            && (a == Reply.Panics <==>
                  || dp.NoType?
                  || (dp.Reached? && PathTo(m, path, cwd, false).Reached? && PathTo(m, path, cwd, false).i !in m.nodes)
                  || (dp.Reached? && dp.i in m.nodes && name !in AsMap(m.nodes[dp.i].content)
                      && (Packed(m.nodes[dp.i].content) || forall j :: 1 <= j < ninodes ==> j in m.nodes)))
            && (a == Failed || a == Reply.Panics || a.Opened?)
  {
    hide AsMap, Elems, Resolve, LastName, Packed, Spare;
    var dp := PathTo(m, path, cwd, true);
    SpareLowest(m.nodes, 1, ninodes);
    if dp.Reached? {
      PathLast(m, path, cwd);
    }
  }

  /** Inode `i` is new, directory `d` names it, and nothing else is different. */
  ghost predicate InodeMade(m: Moment, n: Moment, i: nat, d: nat, name: Name, isDir: bool) {
    && i !in m.nodes && d in m.nodes && n.nodes.Keys == m.nodes.Keys + {i}
    && AbsNode(n.nodes[i]) == Inode(isDir, 1, if isDir then map[DOT := i, DOTDOT := d] else map[])
    && forall j :: j in m.nodes ==>
         var x := AbsNode(m.nodes[j]);
         AbsNode(n.nodes[j]) == if j == d then x.(ents := x.ents[name := i], nlink := if isDir then x.nlink + 1 else x.nlink) else x
  }

  /** What stands for the inodes, one by one. */
  lemma {:induction false} StandsAt(m: Moment, j: nat)
    ensures j in m.nodes <==> j in FsAt(m).nodes
    ensures j in m.nodes ==> FsAt(m).nodes[j] == AbsNode(m.nodes[j])
  {
  }

  lemma {:induction false} CreateMakes(m: Moment, n: Moment, i: nat, d: nat, name: Name, isDir: bool)
    requires Run(FsAt(m), [Create(d, name, i, isDir)], FsAt(n))
    ensures InodeMade(m, n, i, d, name, isDir) && n.removed == m.removed && name !in AbsNode(m.nodes[d]).ents
  {
    hide AbsNode, Run, FsAt;
    var s, t := FsAt(m), FsAt(n);
    RunOne(s, Create(d, name, i, isDir), t);
    CreatedAt(s, d, name, i, isDir);
    hide Step;
    forall j: nat
      ensures j in m.nodes <==> j in s.nodes
      ensures j in n.nodes <==> j in t.nodes
    {
      StandsAt(m, j);
      StandsAt(n, j);
    }
    forall j | j in m.nodes
      ensures s.nodes[j] == AbsNode(m.nodes[j]) && t.nodes[j] == AbsNode(n.nodes[j])
    {
      StandsAt(m, j);
      StandsAt(n, j);
    }
    StandsAt(n, i);
    SameRemoved(m);
    SameRemoved(n);
  }

  lemma {:induction false} SameRemoved(m: Moment)
    ensures FsAt(m).removed == m.removed
  {
  }

  lemma {:induction false} CreatedAt(s: Fs, d: nat, name: Name, i: nat, isDir: bool)
    requires Enabled(s, Create(d, name, i, isDir))
    ensures var t := Step(s, Create(d, name, i, isDir));
            && d in s.nodes && i !in s.nodes && name !in s.nodes[d].ents && t.removed == s.removed
            && t.nodes.Keys == s.nodes.Keys + {i}
            && t.nodes[i] == Inode(isDir, 1, if isDir then map[DOT := i, DOTDOT := d] else map[])
            && forall j :: j in s.nodes ==>
                 var x := s.nodes[j];
                 t.nodes[j] == if j == d then x.(ents := x.ents[name := i], nlink := if isDir then x.nlink + 1 else x.nlink) else x
  {
  }

  lemma {:induction false} CreateExtends(m: Moment, n: Moment, i: nat, d: nat, name: Name, isDir: bool)
    requires InodeMade(m, n, i, d, name, isDir) && name !in AbsNode(m.nodes[d]).ents && IsDirectory(m.nodes, d)
    ensures Extends(m.nodes, n.nodes) && i in n.nodes && n.nodes[i].nlink == 1
    ensures IsDirectory(n.nodes, d) && name in AsMap(n.nodes[d].content) && AsMap(n.nodes[d].content)[name] == i
  {
    hide AsMap;
    assert AbsNode(n.nodes[d]).isDir;
    assert AbsNode(n.nodes[i]).nlink == 1;
  }

  /** After create() the path leads to the inode it gave, with one reference more: to the file that was there, with
      nothing changed, or to a new inode with one link, of the type asked for, that was not in use before. */
  lemma {:induction false} CreateWorks(m: Moment, n: Moment, path: Name, typ: FileType, cwd: nat, ninodes: nat, i: nat)
    requires var q := By(DoCreate(path, typ), cwd); ReplyTo(m, q, ninodes) == Opened(i) && Led(m, q, ninodes, n)
    ensures PathTo(n, path, cwd, false) == Reached(i) && i in n.nodes && n.refs == m.refs + multiset{i} && n.nodes[i].typ == typ
    ensures PathTo(m, path, cwd, false).Reached? ==> n.nodes == m.nodes
    ensures !PathTo(m, path, cwd, false).Reached? ==>
              && PathTo(m, path, cwd, false) == Missing && PathTo(m, path, cwd, true).Reached? && n.nodes[i].nlink == 1
              && InodeMade(m, n, i, PathTo(m, path, cwd, true).i, LastName(path), typ == DirType)
              && (typ != DirType ==> n.nodes[i].content == [])
  {
    hide AsMap, Elems, Resolve, LastName, Packed, Run, Walk, InodeMade, Extends, Spare;
    CreateReplies(m, path, typ, cwd, ninodes);
    PathLast(m, path, cwd);
    var d, name := PathTo(m, path, cwd, true).i, LastName(path);
    if name !in AsMap(m.nodes[d].content) {
      CreateMakes(m, n, i, d, name, typ == DirType);
      CreateExtends(m, n, i, d, name, typ == DirType);
      PathExtends(m, n, path, cwd, true);
      PathLast(n, path, cwd);
    }
  }

  // ---------------------------------------------------------------- unlink

  /** A directory with nothing in it but the dots. */
  ghost predicate Bare(m: Moment, i: nat) {
    i in m.nodes && m.nodes[i].typ == DirType && AsMap(m.nodes[i].content).Keys == {DOT, DOTDOT}
  }

  /** sys_unlink() succeeds exactly if the path leads to something by a name other than the dots and that is no
      directory with entries; it panics exactly if the lookup of the parent does. */
  lemma {:induction false} UnlinkReplies(m: Moment, path: Name, cwd: nat, ninodes: nat)
    requires Fit(m)
    ensures var a, dp, ip := ReplyTo(m, By(DoUnlink(path), cwd), ninodes), PathTo(m, path, cwd, true), PathTo(m, path, cwd, false);
            && (a == Done <==> && dp.Reached? && !Dots(LastName(path)) && ip.Reached? && ip.i in m.nodes
                               && (m.nodes[ip.i].typ == DirType ==> Bare(m, ip.i)))
            && (a == Reply.Panics <==> dp.NoType?)
            && (a == Done || a == Failed || a == Reply.Panics)
  {
    hide AsMap, Elems, Resolve, LastName, Sane, Shaped;
    var dp := PathTo(m, path, cwd, true);
    if dp.Reached? {
      PathLast(m, path, cwd);
      assert Abs(m.nodes)[dp.i] == AbsNode(m.nodes[dp.i]);
      if LastName(path) in AsMap(m.nodes[dp.i].content) {
        var i := AsMap(m.nodes[dp.i].content)[LastName(path)];
        assert i in m.nodes ==> Abs(m.nodes)[i] == AbsNode(m.nodes[i]);
      }
    }
  }

  lemma {:induction false} RunSame(s: Fs, es: seq<Event>, t: Fs, u: Fs)
    requires Run(s, es, t) && Run(s, es, u)
    ensures t == u
    decreases |es|
  {
    hide Enabled, Step;
    if es != [] {
      RunSame(Step(s, es[0]), es[1..], t, u);
    }
  }

  /** The links of directory `d` once inode `i` has been unlinked from it. */
  ghost function Lowered(m: Moment, d: nat, i: nat): (k: nat)
    requires d in m.nodes && i in m.nodes
  {
    if m.nodes[i].typ == DirType then Dec(m.nodes[d].nlink) else m.nodes[d].nlink
  }

  /** Directory `d` has lost the name, inode `i` a link, and `d` another one if `i` is a directory; each of the two
      is gone exactly if it has no links and no references left; and nothing else is different. */
  ghost predicate LinkTaken(m: Moment, n: Moment, i: nat, d: nat, name: Name) {
    && i in m.nodes && d in m.nodes && i != d && n.nodes.Keys <= m.nodes.Keys
    && (i in n.nodes <==> m.nodes[i].nlink > 1 || i in m.refs)
    && (d in n.nodes <==> Lowered(m, d, i) > 0 || d in m.refs)
    && forall j :: j in m.nodes ==>
         && (j != i && j != d ==> j in n.nodes)
         && (j in n.nodes ==>
               var x := AbsNode(m.nodes[j]);
               AbsNode(n.nodes[j]) == if j == i then x.(nlink := Dec(x.nlink))
                                      else if j == d then x.(ents := x.ents - {name}, nlink := Lowered(m, d, i)) else x)
  }

  /** The same on the system of links. */
  lemma {:induction false} UnlinkedAt(s: Fs, d: nat, name: Name, i: nat, refs: multiset<nat>)
    requires Enabled(s, Unlink(d, name)) && s.nodes[d].ents[name] == i && i != d
    ensures var low := if s.nodes[i].isDir then Dec(s.nodes[d].nlink) else s.nodes[d].nlink;
            var t := Freed(Freed(Step(s, Unlink(d, name)), d, refs), i, refs);
            && i in s.nodes && t.nodes.Keys <= s.nodes.Keys
            && (i in t.nodes <==> Dec(s.nodes[i].nlink) > 0 || i in refs)
            && (d in t.nodes <==> low > 0 || d in refs)
            && forall j :: j in s.nodes ==>
                 && (j != i && j != d ==> j in t.nodes)
                 && (j in t.nodes ==>
                       var x := s.nodes[j];
                       t.nodes[j] == if j == i then x.(nlink := Dec(x.nlink))
                                     else if j == d then x.(ents := x.ents - {name}, nlink := low) else x)
  {
  }

  lemma {:induction false} UnlinkTakes(m: Moment, n: Moment, i: nat, d: nat, name: Name)
    requires Enabled(FsAt(m), Unlink(d, name)) && d in m.nodes && i in m.nodes && i != d && AbsNode(m.nodes[d]).ents[name] == i
    requires Run(FsAt(m), UnlinkSteps(FsAt(m), d, name, m.refs), FsAt(n))
    ensures LinkTaken(m, n, i, d, name)
  {
    hide AbsNode, Run, FsAt, UnlinkSteps, Step, Freed;
    var s, t := FsAt(m), FsAt(n);
    var u := Freed(Freed(Step(s, Unlink(d, name)), d, m.refs), i, m.refs);
    StandsAt(m, d);
    StandsAt(m, i);
    RunUnlinked(s, u, d, name, m.refs);
    RunSame(s, UnlinkSteps(s, d, name, m.refs), t, u);
    UnlinkedAt(s, d, name, i, m.refs);
    forall j: nat
      ensures j in m.nodes <==> j in s.nodes
      ensures j in n.nodes <==> j in t.nodes
    {
      StandsAt(m, j);
      StandsAt(n, j);
    }
    AbsFields(m, i);
    AbsFields(m, d);
    forall j | j in m.nodes
      ensures s.nodes[j] == AbsNode(m.nodes[j]) && (j in n.nodes ==> t.nodes[j] == AbsNode(n.nodes[j]))
    {
      StandsAt(m, j);
      StandsAt(n, j);
    }
  }

  lemma {:induction false} AbsFields(m: Moment, j: nat)
    requires j in m.nodes
    ensures AbsNode(m.nodes[j]).nlink == m.nodes[j].nlink && AbsNode(m.nodes[j]).isDir == (m.nodes[j].typ == DirType)
  {
  }

  lemma {:induction false} TakenExtends(m: Moment, n: Moment, i: nat, d: nat, name: Name)
    requires LinkTaken(m, n, i, d, name)
    ensures Extends(n.nodes, m.nodes)
  {
    hide AbsNode;
  }

  lemma {:induction false} TakenAt(m: Moment, n: Moment, i: nat, d: nat, name: Name)
    requires LinkTaken(m, n, i, d, name) && d in n.nodes && IsDirectory(m.nodes, d)
    ensures IsDirectory(n.nodes, d) && AsMap(n.nodes[d].content) == AsMap(m.nodes[d].content) - {name}
  {
    hide AsMap;
    assert AbsNode(n.nodes[d]).isDir;
  }

  /** A path that leads somewhere has a parent that names it. */
  lemma {:induction false} ReachedLast(m: Moment, path: Name, cwd: nat)
    requires PathTo(m, path, cwd, false).Reached? && Elems(path) != []
    ensures PathTo(m, path, cwd, true).Reached?
  {
    hide AsMap, Elems, Trunc;
    WalkLast(m.nodes, Start(path, cwd), Elems(path));
  }

  /** What the entry is of, and that it can be taken. */
  lemma {:induction false} Unlinkable(m: Moment, path: Name, cwd: nat, ninodes: nat)
    requires Fit(m) && ReplyTo(m, By(DoUnlink(path), cwd), ninodes) == Done
    ensures PathTo(m, path, cwd, true).Reached? && PathTo(m, path, cwd, false).Reached?
    ensures var i, d, name := PathTo(m, path, cwd, false).i, PathTo(m, path, cwd, true).i, LastName(path);
            && Enabled(FsAt(m), Unlink(d, name)) && IsDirectory(m.nodes, d) && i in m.nodes && i != d && m.nodes[i].nlink >= 1
            && name in AsMap(m.nodes[d].content) && AsMap(m.nodes[d].content)[name] == i && AbsNode(m.nodes[d]).ents == AsMap(m.nodes[d].content)
  {
    hide AsMap, Elems, Resolve, LastName, Sane, Shaped;
    UnlinkReplies(m, path, cwd, ninodes);
    PathLast(m, path, cwd);
    var d := PathTo(m, path, cwd, true).i;
    StandsAt(m, d);
    UnlinkFacts(FsAt(m), d, LastName(path));
    StandsAt(m, FsAt(m).nodes[d].ents[LastName(path)]);
  }

  /** After unlink the path leads nowhere; the inode has one link less, or is gone if that was the last and nobody
      holds it; and nothing else has changed but the directory. */
  lemma {:induction false} UnlinkWorks(m: Moment, n: Moment, path: Name, cwd: nat, ninodes: nat)
    requires Fit(m)
    requires var q := By(DoUnlink(path), cwd); ReplyTo(m, q, ninodes) == Done && Led(m, q, ninodes, n)
    ensures PathTo(m, path, cwd, false).Reached? && PathTo(m, path, cwd, true).Reached?
    ensures var i, d := PathTo(m, path, cwd, false).i, PathTo(m, path, cwd, true).i;
            && !PathTo(n, path, cwd, false).Reached? && n.refs == m.refs
            && i in m.nodes && m.nodes[i].nlink >= 1
            && (i in n.nodes <==> m.nodes[i].nlink > 1 || i in m.refs)
            && (i in n.nodes ==> n.nodes[i].nlink == m.nodes[i].nlink - 1)
            && LinkTaken(m, n, i, d, LastName(path))
  {
    hide AsMap, Elems, Resolve, LastName, Run, Walk, LinkTaken, Extends, Fit, UnlinkResult, UnlinkSteps;
    Unlinkable(m, path, cwd, ninodes);
    var i, d, name := PathTo(m, path, cwd, false).i, PathTo(m, path, cwd, true).i, LastName(path);
    UnlinkTakes(m, n, i, d, name);
    TakenLinks(m, n, i, d, name);
    PathLast(m, path, cwd);
    if PathTo(n, path, cwd, false).Reached? {
      ReachedLast(n, path, cwd);
      TakenExtends(m, n, i, d, name);
      PathExtends(n, m, path, cwd, true);
      PathLast(n, path, cwd);
      TakenAt(m, n, i, d, name);
    }
  }

  lemma {:induction false} TakenLinks(m: Moment, n: Moment, i: nat, d: nat, name: Name)
    requires LinkTaken(m, n, i, d, name) && m.nodes[i].nlink >= 1
    ensures i in n.nodes <==> m.nodes[i].nlink > 1 || i in m.refs
    ensures i in n.nodes ==> n.nodes[i].nlink == m.nodes[i].nlink - 1
  {
    if i in n.nodes {
      AbsFields(m, i);
      AbsFields(n, i);
    }
  }

  // ---------------------------------------------------------------- dup and close

  /** dup() takes one more reference, to what is held, and nothing else. */
  lemma {:induction false} DupWorks(m: Moment, n: Moment, i: nat, cwd: nat, ninodes: nat)
    requires Led(m, By(DoDup(i), cwd), ninodes, n)
    ensures ReplyTo(m, By(DoDup(i), cwd), ninodes) == if i in m.refs then Done else Failed
    ensures n.nodes == m.nodes && n.refs == if i in m.refs then m.refs + multiset{i} else m.refs
  {
    hide Run;
  }

  /** close() gives one reference back; what had no links and no other reference is gone, and nothing else changes. */
  lemma {:induction false} CloseWorks(m: Moment, n: Moment, i: nat, cwd: nat, ninodes: nat)
    requires Fit(m) && Led(m, By(DoClose(i), cwd), ninodes, n)
    ensures ReplyTo(m, By(DoClose(i), cwd), ninodes) == if i in m.refs then Done else Failed
    ensures n.refs == if i in m.refs then m.refs - multiset{i} else m.refs
    ensures forall j :: j in n.nodes <==> j in m.nodes && !(j == i && i in m.refs && m.nodes[i].nlink == 0 && m.refs[i] == 1)
    ensures forall j :: j in n.nodes && j in m.nodes ==> AbsNode(n.nodes[j]) == AbsNode(m.nodes[j])
  {
    hide Sane, Shaped, AbsNode, Run, Step;
    var s, t := FsAt(m), FsAt(n);
    StandsAt(m, i);
    if i in m.refs {
      AbsFields(m, i);
      if StepsOf(m, By(DoClose(i), cwd), ninodes) != [] {
        RunOne(s, Free(i), t);
        FreedAt(s, i);
      }
    }
    forall j: nat
      ensures j in n.nodes <==> j in m.nodes && !(j == i && i in m.refs && m.nodes[i].nlink == 0 && m.refs[i] == 1)
      ensures j in n.nodes && j in m.nodes ==> AbsNode(n.nodes[j]) == AbsNode(m.nodes[j])
    {
      StandsAt(m, j);
      StandsAt(n, j);
    }
  }

  lemma {:induction false} FreedAt(s: Fs, i: nat)
    requires Enabled(s, Free(i))
    ensures Step(s, Free(i)).nodes == s.nodes - {i}
  {
  }

  // ---------------------------------------------------------------- link and unlink

  lemma {:induction false} DotsThere(m: Moment, d: nat)
    requires Fit(m) && IsDirectory(m.nodes, d)
    ensures DOT in AsMap(m.nodes[d].content) && DOTDOT in AsMap(m.nodes[d].content)
  {
    hide AsMap, Tree, EnoughLinks, Attached, RemovedDirs, Shaped;
    StandsAt(m, d);
    assert NodeOk(FsAt(m), d);
  }

  /** Unlinking what has just been linked succeeds, and all names, links and references are as they were. */
  lemma {:induction false} LinkThenUnlink(m: Moment, n: Moment, p: Moment, from: Name, to: Name, cwd: nat, ninodes: nat)
    requires Fit(m) && Fit(n)
    requires var q := By(DoLink(from, to), cwd); ReplyTo(m, q, ninodes) == Done && Led(m, q, ninodes, n)
    ensures ReplyTo(n, By(DoUnlink(to), cwd), ninodes) == Done
    ensures Led(n, By(DoUnlink(to), cwd), ninodes, p) ==> Abs(p.nodes) == Abs(m.nodes) && p.refs == m.refs
  {
    hide AsMap, Elems, Resolve, LastName, Packed, Run, Walk, Extends, LinkMade, Fit, ReplyTo, Led, AbsNode, Dots;
    LinkWorks(m, n, from, to, cwd, ninodes);
    LinkReplies(m, from, to, cwd, ninodes);
    UnlinkReplies(n, to, cwd, ninodes);
    var i, d, name := PathTo(m, from, cwd, false).i, PathTo(m, to, cwd, true).i, LastName(to);
    PathLast(m, to, cwd);
    DotsThere(m, d);
    NotDotted(name);
    LinkMadeAt(m, n, i, d, name);
    FileStays(m, n, i, d, name);
    if Led(n, By(DoUnlink(to), cwd), ninodes, p) {
      UnlinkWorks(n, p, to, cwd, ninodes);
      ThereAndBack(m, n, p, i, d, name);
    }
  }

  lemma {:induction false} FileStays(m: Moment, n: Moment, i: nat, d: nat, name: Name)
    requires LinkMade(m, n, i, d, name)
    ensures i in n.nodes && (n.nodes[i].typ == DirType <==> m.nodes[i].typ == DirType)
  {
    AbsFields(m, i);
    AbsFields(n, i);
  }

  lemma {:induction false} ThereAndBack(m: Moment, n: Moment, p: Moment, i: nat, d: nat, name: Name)
    requires Fit(m) && LinkMade(m, n, i, d, name) && LinkTaken(n, p, i, d, name) && n.refs == m.refs
    requires name !in AsMap(m.nodes[d].content) && m.nodes[i].typ != DirType && IsDirectory(m.nodes, d)
    ensures Abs(p.nodes) == Abs(m.nodes)
  {
    hide AsMap, Sane, Shaped, AbsNode, LinkMade, LinkTaken, Fit;
    DirEnts(m, d);
    forall j: nat
      ensures j in p.nodes <==> j in m.nodes
      ensures j in m.nodes ==> AbsNode(p.nodes[j]) == AbsNode(m.nodes[j])
    {
      BackAt(m, n, p, i, d, name, j);
    }
    assert p.nodes.Keys == m.nodes.Keys;
  }

  lemma {:induction false} BackAt(m: Moment, n: Moment, p: Moment, i: nat, d: nat, name: Name, j: nat)
    requires Fit(m) && LinkMade(m, n, i, d, name) && LinkTaken(n, p, i, d, name) && n.refs == m.refs
    requires name !in AbsNode(m.nodes[d]).ents && m.nodes[i].typ != DirType
    ensures j in p.nodes <==> j in m.nodes
    ensures j in m.nodes ==> AbsNode(p.nodes[j]) == AbsNode(m.nodes[j])
  {
    hide AbsNode, Sane, Shaped;
    AbsFields(m, i);
    AbsFields(n, i);
    AbsFields(m, d);
    AbsFields(n, d);
    assert Lowered(n, d, i) == m.nodes[d].nlink;
    assert j in m.nodes ==> j in n.nodes && j in p.nodes;
    if j == d {
      assert AbsNode(m.nodes[d]).ents[name := i] - {name} == AbsNode(m.nodes[d]).ents;
    }
  }

  lemma {:induction false} DirEnts(m: Moment, d: nat)
    requires IsDirectory(m.nodes, d)
    ensures AbsNode(m.nodes[d]).ents == AsMap(m.nodes[d].content)
  {
  }

  // ---------------------------------------------------------------- a file under two names

  const SLASH_F: Name := [SLASH] + F

  /** A file is made, linked, and unlinked by its first name; the second one still leads to it. */
  function Renaming(): (qs: seq<Request>) {
    [By(DoCreate(SLASH_D, FileType), ROOT), By(DoLink(SLASH_D, SLASH_F), ROOT), By(DoUnlink(SLASH_D), ROOT), By(DoOpen(SLASH_F, false), ROOT)]
  }

  lemma {:induction false} RootPaths()
    ensures IsCString(SLASH_D) && Elems(SLASH_D) == [D] && LastName(SLASH_D) == D && Start(SLASH_D, ROOT) == ROOT
    ensures IsCString(SLASH_F) && Elems(SLASH_F) == [F] && LastName(SLASH_F) == F && Start(SLASH_F, ROOT) == ROOT
    ensures D != F && !Dots(D) && D != DOT && D != DOTDOT && F != DOT && F != DOTDOT
  {
    PathElems();
    hide Elems;
    var none: Name := [];
    ElemsNone();
    ElemsWord(F, none);
    assert F + none == F && SLASH_F[1..] == F;
    ElemsSlash(SLASH_F);
  }

  /** A root directory with few entries: both paths have it for their parent, and there is room in it. */
  lemma {:induction false} RootRoom(m: Moment)
    requires Fit(m) && IsDirectory(m.nodes, ROOT) && |AsMap(m.nodes[ROOT].content).Keys| < 4480
    ensures PathTo(m, SLASH_D, ROOT, true) == Reached(ROOT) && PathTo(m, SLASH_F, ROOT, true) == Reached(ROOT)
    ensures !Packed(m.nodes[ROOT].content)
  {
    hide AsMap, Elems, Resolve, Packed, Sane, LastName;
    RootPaths();
    ShapedAt(m.nodes, ROOT);
    if Packed(m.nodes[ROOT].content) {
      PackedNames(m.nodes[ROOT].content);
    }
    ResolveOne(m.nodes, ROOT, D);
    ResolveOne(m.nodes, ROOT, F);
  }

  /** The root directory has at most `k` entries, and D and F lead to inode 2 if they are there. */
  ghost predicate RootHas(m: Moment, hasD: bool, hasF: bool, k: nat) {
    IsDirectory(m.nodes, ROOT) && EntsAre(AsMap(m.nodes[ROOT].content), hasD, hasF, k)
  }

  ghost predicate EntsAre(e: map<Name, nat>, hasD: bool, hasF: bool, k: nat) {
    && |e.Keys| <= k && (D in e <==> hasD) && (F in e <==> hasF)
    && (hasD ==> D in e && e[D] == 2) && (hasF ==> F in e && e[F] == 2)
  }

  lemma {:induction false} EntsCount(e: map<Name, nat>, x: Name, i: nat)
    ensures |e[x := i].Keys| <= |e.Keys| + 1 && |(e - {x}).Keys| <= |e.Keys|
  {
    assert e[x := i].Keys == e.Keys + {x};
    assert (e - {x}).Keys == e.Keys - {x};
  }

  lemma {:induction false} EntsMore(e: map<Name, nat>, hasD: bool, hasF: bool, k: nat)
    requires EntsAre(e, hasD, hasF, k)
    ensures EntsAre(e[D := 2], true, hasF, k + 1) && EntsAre(e[F := 2], hasD, true, k + 1) && EntsAre(e - {D}, false, hasF, k)
  {
    EntsCount(e, D, 2);
    EntsCount(e, F, 2);
    assert D[0] != F[0];
  }

  lemma {:induction false} RootMade(m: Moment)
    requires FsAt(m) == Made()
    ensures RootHas(m, false, false, 2) && m.nodes.Keys == {1}
  {
    hide AsMap;
    StandsAt(m, ROOT);
    assert m.nodes.Keys == FsAt(m).nodes.Keys;
    assert Made().nodes[ROOT].ents.Keys == {DOT, DOTDOT};
  }

  /** Inode 2 is a file with `k` links. */
  ghost predicate FileTwo(m: Moment, k: nat) {
    2 in m.nodes && m.nodes[2].typ == FileType && m.nodes[2].nlink == k
  }

  lemma {:induction false} RenamingCreates(m: Moment, n: Moment)
    requires Fit(m) && FsAt(m) == Made()
    ensures ReplyTo(m, By(DoCreate(SLASH_D, FileType), ROOT), NINODES) == Opened(2)
    ensures Led(m, By(DoCreate(SLASH_D, FileType), ROOT), NINODES, n) ==>
              RootHas(n, true, false, 3) && FileTwo(n, 1) && n.refs == m.refs + multiset{2}
  {
    hide AsMap, Elems, Resolve, Packed, LastName, Fit, ReplyTo, Led, Made, InodeMade, EntsAre, FsAt;
    RootPaths();
    RootMade(m);
    EntsFacts(AsMap(m.nodes[ROOT].content), false, false, 2);
    RootRoom(m);
    PathLast(m, SLASH_D, ROOT);
    assert Lowest(m.nodes, NINODES, 2);
    CreateReplies(m, SLASH_D, FileType, ROOT, NINODES);
    if Led(m, By(DoCreate(SLASH_D, FileType), ROOT), NINODES, n) {
      CreateWorks(m, n, SLASH_D, FileType, ROOT, NINODES, 2);
      NewEnts(m, n, 2, ROOT, D, false);
      EntsMore(AsMap(m.nodes[ROOT].content), false, false, 2);
    }
  }

  lemma {:induction false} EntsFacts(e: map<Name, nat>, hasD: bool, hasF: bool, k: nat)
    requires EntsAre(e, hasD, hasF, k)
    ensures |e.Keys| <= k && (D in e <==> hasD) && (F in e <==> hasF)
    ensures (hasD ==> D in e && e[D] == 2) && (hasF ==> F in e && e[F] == 2)
  {
  }

  lemma {:induction false} NewEnts(m: Moment, n: Moment, i: nat, d: nat, name: Name, isDir: bool)
    requires InodeMade(m, n, i, d, name, isDir) && IsDirectory(m.nodes, d)
    ensures IsDirectory(n.nodes, d) && AsMap(n.nodes[d].content) == AsMap(m.nodes[d].content)[name := i]
  {
    hide AsMap;
    AbsFields(n, d);
    DirEnts(m, d);
    assert AbsNode(n.nodes[d]).isDir;
    DirEnts(n, d);
  }

  lemma {:induction false} RenamingLinks(m: Moment, n: Moment)
    requires Fit(m) && RootHas(m, true, false, 3) && FileTwo(m, 1)
    ensures ReplyTo(m, By(DoLink(SLASH_D, SLASH_F), ROOT), NINODES) == Done
    ensures Led(m, By(DoLink(SLASH_D, SLASH_F), ROOT), NINODES, n) ==>
              RootHas(n, true, true, 4) && FileTwo(n, 2) && n.refs == m.refs
  {
    hide AsMap, Elems, Resolve, Packed, LastName, Fit, ReplyTo, Led, LinkMade, EntsAre;
    RootPaths();
    EntsFacts(AsMap(m.nodes[ROOT].content), true, false, 3);
    RootRoom(m);
    PathLast(m, SLASH_D, ROOT);
    LinkReplies(m, SLASH_D, SLASH_F, ROOT, NINODES);
    if Led(m, By(DoLink(SLASH_D, SLASH_F), ROOT), NINODES, n) {
      LinkWorks(m, n, SLASH_D, SLASH_F, ROOT, NINODES);
      LinkMadeAt(m, n, 2, ROOT, F);
      TypeKept(m, n, By(DoLink(SLASH_D, SLASH_F), ROOT), 2);
      EntsMore(AsMap(m.nodes[ROOT].content), true, false, 3);
    }
  }

  lemma {:induction false} TypeKept(m: Moment, n: Moment, q: Request, i: nat)
    requires Led(m, q, NINODES, n) && i in m.nodes && i in n.nodes
    ensures n.nodes[i].typ == m.nodes[i].typ
  {
    hide Run, StepsOf, ReplyTo, RefsAfter;
  }

  lemma {:induction false} RenamingUnlinks(m: Moment, n: Moment)
    requires Fit(m) && RootHas(m, true, true, 4) && FileTwo(m, 2) && ROOT in m.refs
    ensures ReplyTo(m, By(DoUnlink(SLASH_D), ROOT), NINODES) == Done
    ensures Led(m, By(DoUnlink(SLASH_D), ROOT), NINODES, n) ==> RootHas(n, false, true, 4) && FileTwo(n, 1)
  {
    hide AsMap, Elems, Resolve, Packed, LastName, Fit, ReplyTo, Led, LinkTaken, EntsAre, Dots;
    RootPaths();
    EntsFacts(AsMap(m.nodes[ROOT].content), true, true, 4);
    RootRoom(m);
    PathLast(m, SLASH_D, ROOT);
    UnlinkReplies(m, SLASH_D, ROOT, NINODES);
    if Led(m, By(DoUnlink(SLASH_D), ROOT), NINODES, n) {
      UnlinkWorks(m, n, SLASH_D, ROOT, NINODES);
      TakenHeld(m, n, 2, ROOT, D);
      TakenAt(m, n, 2, ROOT, D);
      TypeKept(m, n, By(DoUnlink(SLASH_D), ROOT), 2);
      EntsMore(AsMap(m.nodes[ROOT].content), true, true, 4);
    }
  }

  lemma {:induction false} TakenHeld(m: Moment, n: Moment, i: nat, d: nat, name: Name)
    requires LinkTaken(m, n, i, d, name) && d in m.refs
    ensures d in n.nodes
  {
  }

  lemma {:induction false} RenamingOpens(m: Moment)
    requires Fit(m) && RootHas(m, false, true, 4) && FileTwo(m, 1)
    ensures ReplyTo(m, By(DoOpen(SLASH_F, false), ROOT), NINODES) == Opened(2)
  {
    hide AsMap, Elems, Resolve, Packed, LastName, Fit, ReplyTo, EntsAre;
    RootPaths();
    EntsFacts(AsMap(m.nodes[ROOT].content), false, true, 4);
    RootRoom(m);
    PathLast(m, SLASH_F, ROOT);
    OpenReplies(m, SLASH_F, false, ROOT, NINODES);
  }

  /** The answers, whatever the bytes of the directories are. */
  lemma {:induction false} RenamingReplies(replies: seq<Reply>, ms: seq<Moment>)
    requires Story(Renaming(), NINODES, replies, ms) && (Ended(replies) || |replies| == 4)
    requires ms != [] && FsAt(ms[0]) == Made() && ms[0].refs == multiset{ROOT}
    ensures replies == [Opened(2), Done, Done, Opened(2)] && |ms| == 5 && FileTwo(ms[4], 1)
  {
    hide Story, ReplyTo, Led, Fit, Made, Ended, RootHas, FileTwo, FsAt;
    var qs := Renaming();
    StoryNext(qs, NINODES, replies, ms, 0);
    RenamingCreates(ms[0], if |ms| > 1 then ms[1] else ms[0]);
    StoryNext(qs, NINODES, replies, ms, 1);
    RenamingLinks(ms[1], if |ms| > 2 then ms[2] else ms[1]);
    StoryNext(qs, NINODES, replies, ms, 2);
    RenamingUnlinks(ms[2], if |ms| > 3 then ms[3] else ms[2]);
    StoryNext(qs, NINODES, replies, ms, 3);
    RenamingOpens(ms[3]);
    OpenWorks(ms[3], ms[4], SLASH_F, false, ROOT, NINODES);
    FileSame(ms[3], ms[4], 1);
    StoryEnd(qs, NINODES, replies, ms);
  }

  lemma {:induction false} FileSame(m: Moment, n: Moment, k: nat)
    requires FileTwo(m, k) && n.nodes == m.nodes
    ensures FileTwo(n, k)
  {
  }

  lemma {:induction false} StoryEnd(calls: seq<Request>, ninodes: nat, replies: seq<Reply>, ms: seq<Moment>)
    requires Story(calls, ninodes, replies, ms) && |replies| > 0
    ensures |ms| == if replies[|replies| - 1] == Reply.Panics then |replies| else |replies| + 1
    ensures |replies| <= |calls|
  {
    hide Led, ReplyTo, Fit;
  }

  /** And so it goes on a made file system. */
  method Rename() returns (f: Files, replies: seq<Reply>)
    ensures replies == [Opened(2), Done, Done, Opened(2)] && 2 in f.nodes && f.nodes[2].nlink == 1
  {
    hide Story, Ready, Made, FsAt;
    RootPaths();
    ghost var ms;
    f, replies, ms := Session(Renaming(), NINODES);
    RenamingReplies(replies, ms);
    assert !Ended(replies);
  }
}
