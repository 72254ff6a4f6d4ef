/** Lookups that end in the panic for an inode without a type (fs.c): exactly which do, when there are any, and
    a sequence of calls that ends with one. */
module Lookups {

  import opened Options
  import opened Blocks
  import opened Dirents
  import opened Namei
  import opened Links
  import opened SysFile
  import opened Calls

  // ---------------------------------------------------------------- which lookups panic

  /** Directory `d` has been removed, and its parent is gone. */
  ghost predicate Orphan(ns: Nodes, removed: set<nat>, d: nat) {
    && d in removed && IsDirectory(ns, d)
    && DOTDOT in AsMap(ns[d].content) && AsMap(ns[d].content)[DOTDOT] !in ns
  }

  /** The walk comes to such a directory, and goes on through its ".." from there. */
  ghost predicate ThroughOrphan(ns: Nodes, removed: set<nat>, i: nat, es: seq<Name>, k: nat) {
    && k + 1 < |es| && Trunc(es[k]) == DOTDOT
    && var r := Walk(ns, i, es[..k]); r.Reached? && Orphan(ns, removed, r.i)
  }

  lemma {:induction false} ThroughFirst(ns: Nodes, removed: set<nat>, i: nat, es: seq<Name>)
    ensures ThroughOrphan(ns, removed, i, es, 0) <==> 1 < |es| && Trunc(es[0]) == DOTDOT && Orphan(ns, removed, i)
  {
    hide Orphan;
    if 1 < |es| {
      assert es[..0] == [];
    }
  }

  lemma {:induction false} ThroughNext(ns: Nodes, removed: set<nat>, i: nat, es: seq<Name>, k: nat)
    requires es != [] && IsDirectory(ns, i) && Trunc(es[0]) in AsMap(ns[i].content)
    ensures ThroughOrphan(ns, removed, i, es, k + 1)
            <==> ThroughOrphan(ns, removed, AsMap(ns[i].content)[Trunc(es[0])], es[1..], k)
  {
    hide AsMap, Orphan;
    if k + 2 < |es| {
      assert es[..k + 1][0] == es[0] && es[..k + 1][1..] == es[1..][..k];
    }
  }

  lemma {:induction false} ThroughNowhere(ns: Nodes, removed: set<nat>, i: nat, es: seq<Name>, k: nat)
    requires es == [] || i !in ns || !IsDirectory(ns, i) || Trunc(es[0]) !in AsMap(ns[i].content)
    ensures !ThroughOrphan(ns, removed, i, es, k)
  {
    hide AsMap;
    if es != [] && 0 < k < |es| {
      assert es[..k][0] == es[0];
    } else if es != [] {
      ThroughFirst(ns, removed, i, es);
    }
  }

  /** A walk panics if and only if it goes on through the ".." of a removed directory whose parent is gone. */
  lemma {:induction false} WalkPanics(ns: Nodes, i: nat, es: seq<Name>, removed: set<nat>, pending: multiset<nat>)
    requires Sane(FsOf(ns, removed, pending)) && i in ns
    ensures Walk(ns, i, es).NoType? <==> exists k: nat :: ThroughOrphan(ns, removed, i, es, k)
    decreases |es|
  {
    hide Sane, AsMap, Abs, ThroughOrphan, Orphan;
    if es == [] || !IsDirectory(ns, i) || Trunc(es[0]) !in AsMap(ns[i].content) {
      forall k: nat
        ensures !ThroughOrphan(ns, removed, i, es, k)
      {
        ThroughNowhere(ns, removed, i, es, k);
      }
      return;
    }
    var j := AsMap(ns[i].content)[Trunc(es[0])];
    ThroughFirst(ns, removed, i, es);
    forall k: nat
      ensures ThroughOrphan(ns, removed, i, es, k + 1) <==> ThroughOrphan(ns, removed, j, es[1..], k)
    {
      ThroughNext(ns, removed, i, es, k);
    }
    if j in ns {
      OrphanNames(ns, removed, i);
      WalkPanics(ns, j, es[1..], removed, pending);
      SplitFirst(ns, removed, i, es, j);
    } else {
      if !(Trunc(es[0]) == DOTDOT && i in removed) {
        NameThere(ns, i, Trunc(es[0]), removed, pending);
      }
      forall k: nat
        ensures !ThroughOrphan(ns, removed, j, es[1..], k)
      {
        ThroughNowhere(ns, removed, j, es[1..], k);
      }
      OrphanIs(ns, removed, i);
      SplitFirst(ns, removed, i, es, j);
    }
  }

  lemma {:induction false} OrphanNames(ns: Nodes, removed: set<nat>, d: nat)
    ensures Orphan(ns, removed, d) ==>
              IsDirectory(ns, d) && DOTDOT in AsMap(ns[d].content) && AsMap(ns[d].content)[DOTDOT] !in ns
  {
  }

  lemma {:induction false} OrphanIs(ns: Nodes, removed: set<nat>, d: nat)
    requires d in removed && IsDirectory(ns, d) && DOTDOT in AsMap(ns[d].content) && AsMap(ns[d].content)[DOTDOT] !in ns
    ensures Orphan(ns, removed, d)
  {
  }

  lemma {:induction false} SplitFirst(ns: Nodes, removed: set<nat>, i: nat, es: seq<Name>, j: nat)
    requires es != []
    requires forall k: nat :: ThroughOrphan(ns, removed, i, es, k + 1) <==> ThroughOrphan(ns, removed, j, es[1..], k)
    ensures (exists k: nat :: ThroughOrphan(ns, removed, i, es, k))
            <==> ThroughOrphan(ns, removed, i, es, 0) || exists k: nat :: ThroughOrphan(ns, removed, j, es[1..], k)
  {
    hide ThroughOrphan;
    if k: nat :| ThroughOrphan(ns, removed, i, es, k) {
      if k > 0 {
        var l: nat := k - 1;
        assert ThroughOrphan(ns, removed, i, es, l + 1);
        assert ThroughOrphan(ns, removed, j, es[1..], l);
      }
    }
    if k: nat :| ThroughOrphan(ns, removed, j, es[1..], k) {
      assert ThroughOrphan(ns, removed, i, es, k + 1);
    }
  }

  // ---------------------------------------------------------------- when there are any

  /** No lookup from any inode along any path panics, if and only if no removed directory has lost its
      parent. */
  lemma {:induction false} LookupsSafe(ns: Nodes, removed: set<nat>, pending: multiset<nat>)
    requires Sane(FsOf(ns, removed, pending))
    ensures (forall i: nat, es: seq<Name> :: i in ns ==> !Walk(ns, i, es).NoType?) <==> (forall d :: !Orphan(ns, removed, d))
  {
    hide Sane, Abs, Walk, Orphan;
    if forall d :: !Orphan(ns, removed, d) {
      forall i: nat, es: seq<Name> | i in ns
        ensures !Walk(ns, i, es).NoType?
      {
        WalkPanics(ns, i, es, removed, pending);
      }
    }
    if d :| Orphan(ns, removed, d) {
      OrphanPanics(ns, removed, d);
    }
  }

  lemma {:induction false} OrphanPanics(ns: Nodes, removed: set<nat>, d: nat)
    requires Orphan(ns, removed, d)
    ensures d in ns && Walk(ns, d, [DOTDOT, DOT]).NoType?
  {
    hide AsMap;
    DotNames();
    var es := [DOTDOT, DOT];
    assert es[1..] == [DOT];
  }

  // ---------------------------------------------------------------- calls that end with one

  ghost function NamesUpto(c: seq<Byte>, n: nat): (s: set<Name>)
    requires forall l: nat :: l < n ==> Live(c, l)
  {
    if n == 0 then {} else assert Live(c, n - 1); NamesUpto(c, n - 1) + {NameAt(c, n - 1)}
  }

  lemma {:induction false} NameBeyond(c: seq<Byte>, n: nat, m: nat)
    requires Proper(c) && n <= m && Live(c, m) && forall l: nat :: l < n ==> Live(c, l)
    ensures NameAt(c, m) !in NamesUpto(c, n)
    decreases n
  {
    hide NameAt, Live;
    if n > 0 {
      NameBeyond(c, n - 1, m);
      assert Live(c, n - 1);
    }
  }

  lemma {:induction false} NamesUptoAre(c: seq<Byte>, n: nat)
    requires Proper(c) && forall l: nat :: l < n ==> Live(c, l)
    ensures |NamesUpto(c, n)| == n && NamesUpto(c, n) <= AsMap(c).Keys
    decreases n
  {
    hide AsMap, Keys, NameAt, Live, Proper;
    if n > 0 {
      NamesUptoAre(c, n - 1);
      assert Live(c, n - 1);
      NameBeyond(c, n - 1, n - 1);
      AsMapAt(c, n - 1);
    }
  }

  /** A directory with few names is not full. */
  lemma {:induction false} PackedNames(c: seq<Byte>)
    requires Proper(c) && Packed(c)
    ensures |AsMap(c).Keys| >= 4480
  {
    hide AsMap, Keys, NameAt, Live;
    var n := Count(c);
    NamesUptoAre(c, n);
    var s, t := NamesUpto(c, n), AsMap(c).Keys;
    assert t == s + (t - s);
  }

  const SLASH_D: Name := [SLASH] + D
  const SLASH_DF: Name := [SLASH] + D + [SLASH] + F
  const UP_DOT: Name := DOTDOT + [SLASH] + DOT

  lemma {:induction false} PathElems()
    ensures IsCString(SLASH_D) && Elems(SLASH_D) == [D] && LastName(SLASH_D) == D
    ensures IsCString(SLASH_DF) && Elems(SLASH_DF) == [D, F] && LastName(SLASH_DF) == F
    ensures IsCString(UP_DOT) && Elems(UP_DOT) == [DOTDOT, DOT]
  {
    hide Elems;
    ElemsNone();
    var none: Name := [];
    ElemsWord(D, none);
    assert D + none == D && SLASH_D[1..] == D;
    ElemsSlash(SLASH_D);
    ElemsWord(F, none);
    assert F + none == F;
    ElemsSlash([SLASH] + F);
    assert ([SLASH] + F)[1..] == F;
    ElemsWord(D, [SLASH] + F);
    assert SLASH_DF[1..] == D + ([SLASH] + F);
    ElemsSlash(SLASH_DF);
    ElemsWord(DOT, none);
    assert DOT + none == DOT;
    ElemsSlash([SLASH] + DOT);
    assert ([SLASH] + DOT)[1..] == DOT;
    ElemsWord(DOTDOT, [SLASH] + DOT);
    assert UP_DOT == DOTDOT + ([SLASH] + DOT);
  }

  /** A directory is made, and one in it; both are removed while the inner one is held; and from there a path
      is followed that goes up. */
  function Orphaning(): (qs: seq<Request>) {
    [By(DoCreate(SLASH_D, DirType), ROOT), By(DoCreate(SLASH_DF, DirType), ROOT), By(DoUnlink(SLASH_DF), ROOT),
     By(DoUnlink(SLASH_D), ROOT), By(DoClose(2), ROOT), By(DoOpen(UP_DOT, false), 3)]
  }

  const NINODES := 200

  /** What one more call of a story has done. */
  lemma {:induction false} StoryNext(calls: seq<Request>, ninodes: nat, replies: seq<Reply>, ms: seq<Moment>, k: nat)
    requires Story(calls, ninodes, replies, ms) && (Ended(replies) || |replies| == |calls|) && k < |ms| && k < |calls|
    ensures k < |replies| && replies[k] == ReplyTo(ms[k], calls[k], ninodes) && Fit(ms[k])
    ensures replies[k] == Reply.Panics ==> |replies| == k + 1
    ensures replies[k] != Reply.Panics ==> k + 1 < |ms| && Led(ms[k], calls[k], ninodes, ms[k + 1])
  {
    hide Led, ReplyTo, Fit;
    if |replies| > k + 1 {
      assert |ms| > k + 1;
    }
  }

  /** A moment whose inodes stand for those of `s`. */
  ghost predicate StandsFor(m: Moment, s: Fs, refs: multiset<nat>) {
    Fit(m) && FsAt(m) == s && m.refs == refs
  }

  lemma {:induction false} DirAt(m: Moment, s: Fs, refs: multiset<nat>, d: nat)
    requires StandsFor(m, s, refs) && d in s.nodes && s.nodes[d].isDir
    ensures m.nodes.Keys == s.nodes.Keys && IsDirectory(m.nodes, d) && AsMap(m.nodes[d].content) == s.nodes[d].ents
    ensures |s.nodes[d].ents.Keys| < 4480 ==> !Packed(m.nodes[d].content)
  {
    hide Sane, AsMap, Packed;
    assert Abs(m.nodes)[d] == AbsNode(m.nodes[d]);
    ShapedAt(m.nodes, d);
    if Packed(m.nodes[d].content) {
      PackedNames(m.nodes[d].content);
    }
  }

  lemma {:induction false} RunOne(s: Fs, e: Event, t: Fs)
    requires Run(s, [e], t)
    ensures Enabled(s, e) && t == Step(s, e)
  {
    hide Enabled, Step;
    var es := [e];
    assert es[0] == e && es[1..] == [];
    assert Run(Step(s, e), [], t);
  }

  lemma {:induction false} ResolveOne(ns: Nodes, i: nat, n: Name)
    requires IsDirectory(ns, i)
    ensures Resolve(ns, i, [n], true) == Reached(i)
  {
    hide AsMap;
    var es := [n];
    assert es[..|es| - 1] == [];
  }

  lemma {:induction false} ResolveTwo(ns: Nodes, i: nat, n: Name, x: Name)
    requires IsDirectory(ns, i) && Trunc(n) in AsMap(ns[i].content) && IsDirectory(ns, AsMap(ns[i].content)[Trunc(n)])
    ensures Resolve(ns, i, [n, x], true) == Reached(AsMap(ns[i].content)[Trunc(n)])
  {
    hide AsMap, Resolve;
    var es := [n, x];
    ResolveStep(ns, i, es, true);
    assert es[1..] == [x];
    ResolveOne(ns, AsMap(ns[i].content)[Trunc(n)], x);
  }

  lemma {:induction false} SpareTwo(ns: Nodes)
    requires ns.Keys == {1}
    ensures Spare(ns, 1, NINODES) == Some(2)
  {
    assert 1 in ns && 2 !in ns;
    assert Spare(ns, 2, NINODES) == Some(2);
  }

  lemma {:induction false} SpareThree(ns: Nodes)
    requires ns.Keys == {1, 2}
    ensures Spare(ns, 1, NINODES) == Some(3)
  {
    assert 1 in ns && 2 in ns && 3 !in ns;
    assert Spare(ns, 3, NINODES) == Some(3);
    assert Spare(ns, 2, NINODES) == Some(3);
  }

  /** Inode 1 of `s` is a directory with few entries; so is inode 2, and inode 1 has it as D. */
  ghost predicate Outer(s: Fs) {
    ROOT in s.nodes && s.nodes[ROOT].isDir && |s.nodes[ROOT].ents.Keys| < 4480
  }

  ghost predicate Inner(s: Fs) {
    && Outer(s) && D in s.nodes[ROOT].ents && s.nodes[ROOT].ents[D] == 2
    && 2 in s.nodes && s.nodes[2].isDir && |s.nodes[2].ents.Keys| < 4480
  }

  lemma {:induction false} MadeFacts()
    ensures Outer(Made()) && D !in Made().nodes[ROOT].ents && Made().nodes.Keys == {1}
  {
    assert Made().nodes[ROOT].ents.Keys == {DOT, DOTDOT};
  }

  lemma {:induction false} AfterMkdirFacts()
    ensures Inner(AfterMkdir()) && F !in AfterMkdir().nodes[2].ents && AfterMkdir().nodes.Keys == {1, 2}
  {
    assert AfterMkdir().nodes[ROOT].ents.Keys == {DOT, DOTDOT, D};
    assert AfterMkdir().nodes[2].ents.Keys == {DOT, DOTDOT};
  }

  lemma {:induction false} TwoDeepFacts()
    ensures Inner(TwoDeep())
    ensures Enabled(TwoDeep(), Unlink(2, F)) && UnlinkSteps(TwoDeep(), 2, F, multiset{ROOT, 2, 3}) == [Unlink(2, F)]
  {
    hide Enabled, Step;
    assert TwoDeep().nodes[ROOT].ents.Keys == {DOT, DOTDOT, D};
    assert TwoDeep().nodes[2].ents.Keys == {DOT, DOTDOT, F};
    RmdirInside();
    var u, refs := InnerRemoved(), multiset{ROOT, 2, 3};
    assert TwoDeep().nodes[2].ents[F] == 3;
    assert FreeSteps(u, 2, refs) == [] && Freed(u, 2, refs) == u && FreeSteps(u, 3, refs) == [];
  }

  lemma {:induction false} InnerRemovedFacts()
    ensures Outer(InnerRemoved())
    ensures Enabled(InnerRemoved(), Unlink(ROOT, D)) && UnlinkSteps(InnerRemoved(), ROOT, D, multiset{ROOT, 2, 3}) == [Unlink(ROOT, D)]
  {
    hide Enabled, Step;
    assert InnerRemoved().nodes[ROOT].ents.Keys == {DOT, DOTDOT, D};
    RmdirOutside();
    var u, refs := BothRemoved(), multiset{ROOT, 2, 3};
    assert InnerRemoved().nodes[ROOT].ents[D] == 2;
    assert FreeSteps(u, ROOT, refs) == [] && Freed(u, ROOT, refs) == u && FreeSteps(u, 2, refs) == [];
  }

  lemma {:induction false} MakesOuter(m: Moment)
    requires StandsFor(m, Made(), multiset{ROOT})
    ensures ReplyTo(m, Orphaning()[0], NINODES) == Opened(2) && StepsOf(m, Orphaning()[0], NINODES) == [Create(ROOT, D, 2, true)]
  {
    hide AsMap, Elems, Resolve, StandsFor, LastName, Packed, Made, Outer;
    PathElems();
    MadeFacts();
    OuterAt(m, Made(), multiset{ROOT});
    SpareTwo(m.nodes);
  }

  lemma {:induction false} MakesInner(m: Moment)
    requires StandsFor(m, AfterMkdir(), multiset{ROOT, 2})
    ensures ReplyTo(m, Orphaning()[1], NINODES) == Opened(3) && StepsOf(m, Orphaning()[1], NINODES) == [Create(2, F, 3, true)]
  {
    hide AsMap, Elems, Resolve, StandsFor, LastName, Packed, AfterMkdir, Inner, Outer;
    PathElems();
    AfterMkdirFacts();
    InnerAt(m, AfterMkdir(), multiset{ROOT, 2});
    SpareThree(m.nodes);
  }

  lemma {:induction false} OuterAt(m: Moment, s: Fs, refs: multiset<nat>)
    requires StandsFor(m, s, refs) && Outer(s)
    ensures m.nodes.Keys == s.nodes.Keys && ROOT in s.nodes && IsDirectory(m.nodes, ROOT)
    ensures AsMap(m.nodes[ROOT].content) == s.nodes[ROOT].ents && !Packed(m.nodes[ROOT].content)
    ensures Resolve(m.nodes, ROOT, [D], true) == Reached(ROOT)
  {
    hide AsMap, Resolve, StandsFor, Packed;
    DirAt(m, s, refs, ROOT);
    ResolveOne(m.nodes, ROOT, D);
  }

  lemma {:induction false} InnerAt(m: Moment, s: Fs, refs: multiset<nat>)
    requires StandsFor(m, s, refs) && Inner(s)
    ensures m.nodes.Keys == s.nodes.Keys && 2 in s.nodes && IsDirectory(m.nodes, 2)
    ensures AsMap(m.nodes[2].content) == s.nodes[2].ents && !Packed(m.nodes[2].content)
    ensures Resolve(m.nodes, ROOT, [D, F], true) == Reached(2)
  {
    hide AsMap, Resolve, StandsFor, Packed;
    DirAt(m, s, refs, ROOT);
    DirAt(m, s, refs, 2);
    assert Trunc(D) == D;
    ResolveTwo(m.nodes, ROOT, D, F);
  }

  lemma {:induction false} RemovesInner(m: Moment)
    requires StandsFor(m, TwoDeep(), multiset{ROOT, 2, 3})
    ensures ReplyTo(m, Orphaning()[2], NINODES) == Done && StepsOf(m, Orphaning()[2], NINODES) == [Unlink(2, F)]
  {
    hide AsMap, Elems, Resolve, LastName, Packed, TwoDeep, Inner, Outer, Enabled, UnlinkSteps, Fit;
    PathElems();
    TwoDeepFacts();
    InnerAt(m, TwoDeep(), multiset{ROOT, 2, 3});
  }

  lemma {:induction false} RemovesOuter(m: Moment)
    requires StandsFor(m, InnerRemoved(), multiset{ROOT, 2, 3})
    ensures ReplyTo(m, Orphaning()[3], NINODES) == Done && StepsOf(m, Orphaning()[3], NINODES) == [Unlink(ROOT, D)]
  {
    hide AsMap, Elems, Resolve, LastName, Packed, InnerRemoved, Inner, Outer, Enabled, UnlinkSteps, Fit;
    PathElems();
    InnerRemovedFacts();
    OuterAt(m, InnerRemoved(), multiset{ROOT, 2, 3});
  }

  lemma {:induction false} ClosesOuter(m: Moment)
    requires StandsFor(m, BothRemoved(), multiset{ROOT, 2, 3})
    ensures ReplyTo(m, Orphaning()[4], NINODES) == Done && StepsOf(m, Orphaning()[4], NINODES) == [Free(2)]
  {
    hide Fit, Abs;
    assert multiset{ROOT, 2, 3} - multiset{2} == multiset{ROOT, 3};
  }

  lemma {:induction false} GoesUp(m: Moment, s: Fs)
    requires StandsFor(m, s, multiset{ROOT, 3})
    requires 3 in s.nodes && s.nodes[3].isDir && DOTDOT in s.nodes[3].ents && s.nodes[3].ents[DOTDOT] !in s.nodes
    ensures Walk(m.nodes, 3, [DOTDOT, DOT]) == NoType && ReplyTo(m, Orphaning()[5], NINODES) == Reply.Panics
  {
    hide AsMap, Elems, StandsFor, Packed;
    PathElems();
    DirAt(m, s, multiset{ROOT, 3}, 3);
    DotNames();
    var es := [DOTDOT, DOT];
    assert es[1..] == [DOT];
  }

  /** One call more, of a single step. */
  lemma {:induction false} Advance(replies: seq<Reply>, ms: seq<Moment>, k: nat, a: Reply, e: Event, s: Fs, refs: multiset<nat>)
    requires Story(Orphaning(), NINODES, replies, ms) && (Ended(replies) || |replies| == 6) && k < |ms| && k < 5
    requires StandsFor(ms[k], s, refs) && a != Reply.Panics
    requires ReplyTo(ms[k], Orphaning()[k], NINODES) == a && StepsOf(ms[k], Orphaning()[k], NINODES) == [e]
    ensures k < |replies| && replies[k] == a && k + 1 < |ms|
    ensures Enabled(s, e) && StandsFor(ms[k + 1], Step(s, e), RefsAfter(ms[k], Orphaning()[k], a))
  {
    hide Enabled, Step, Run, ReplyTo, StepsOf, Fit, FsAt, RefsAfter;
    assert |Orphaning()| == 6;
    hide Orphaning, Story;
    StoryNext(Orphaning(), NINODES, replies, ms, k);
    FitAt(Orphaning(), replies, ms, k + 1);
    RunOne(s, e, FsAt(ms[k + 1]));
  }

  lemma {:induction false} FitAt(calls: seq<Request>, replies: seq<Reply>, ms: seq<Moment>, k: nat)
    requires Story(calls, NINODES, replies, ms) && k < |ms|
    ensures Fit(ms[k])
  {
    hide Fit, Led, ReplyTo;
  }

  lemma {:induction false} RefsThen(m: Moment)
    ensures m.refs == multiset{ROOT} ==> RefsAfter(m, Orphaning()[0], Opened(2)) == multiset{ROOT, 2}
    ensures m.refs == multiset{ROOT, 2} ==> RefsAfter(m, Orphaning()[1], Opened(3)) == multiset{ROOT, 2, 3}
    ensures m.refs == multiset{ROOT, 2, 3} ==>
              && RefsAfter(m, Orphaning()[2], Done) == RefsAfter(m, Orphaning()[3], Done) == multiset{ROOT, 2, 3}
              && RefsAfter(m, Orphaning()[4], Done) == multiset{ROOT, 3}
  {
    assert multiset{ROOT, 2, 3} - multiset{2} == multiset{ROOT, 3};
  }

  /** The inner directory is held and its parent gone. */
  ghost predicate Orphaned(m: Moment) {
    Walk(m.nodes, 3, [DOTDOT, DOT]) == NoType && 3 in m.refs
  }

  /** So these calls, from any made file system, end with a lookup that panics. */
  lemma {:induction false} OrphaningPanics(replies: seq<Reply>, ms: seq<Moment>)
    requires Story(Orphaning(), NINODES, replies, ms) && (Ended(replies) || |replies| == 6)
    requires ms != [] && FsAt(ms[0]) == Made() && ms[0].refs == multiset{ROOT}
    ensures replies == [Opened(2), Opened(3), Done, Done, Done, Reply.Panics] && |ms| == 6 && Orphaned(ms[5])
  {
    hide Story, ReplyTo, StepsOf, RefsAfter, Fit, Made, AfterMkdir, TwoDeep, InnerRemoved, BothRemoved, Walk, Step, Enabled, FsAt;
    assert |Orphaning()| == 6;
    hide Orphaning;
    FitAt(Orphaning(), replies, ms, 0);
    MakesOuter(ms[0]);
    Advance(replies, ms, 0, Opened(2), Create(ROOT, D, 2, true), Made(), multiset{ROOT});
    Mkdir();
    RefsThen(ms[0]);
    MakesInner(ms[1]);
    Advance(replies, ms, 1, Opened(3), Create(2, F, 3, true), AfterMkdir(), multiset{ROOT, 2});
    MkdirInside();
    RefsThen(ms[1]);
    RemovesInner(ms[2]);
    Advance(replies, ms, 2, Done, Unlink(2, F), TwoDeep(), multiset{ROOT, 2, 3});
    RmdirInside();
    RefsThen(ms[2]);
    RemovesOuter(ms[3]);
    Advance(replies, ms, 3, Done, Unlink(ROOT, D), InnerRemoved(), multiset{ROOT, 2, 3});
    RmdirOutside();
    RefsThen(ms[3]);
    ClosesOuter(ms[4]);
    Advance(replies, ms, 4, Done, Free(2), BothRemoved(), multiset{ROOT, 2, 3});
    FreeParent();
    RefsThen(ms[4]);
    GoesUp(ms[5], Step(BothRemoved(), Free(2)));
    StoryNext(Orphaning(), NINODES, replies, ms, 5);
    StoryLength(replies, ms);
  }

  lemma {:induction false} StoryLength(replies: seq<Reply>, ms: seq<Moment>)
    requires Story(Orphaning(), NINODES, replies, ms) && |replies| == 6 && replies[5] == Reply.Panics
    ensures |ms| == 6
  {
    hide Led, ReplyTo, Fit;
  }

  method LookupPanics() returns (f: Files, replies: seq<Reply>, ghost ms: seq<Moment>)
    ensures Story(Orphaning(), NINODES, replies, ms) && |ms| == 6 && FsAt(ms[0]) == Made() && Orphaned(ms[5])
    ensures replies == [Opened(2), Opened(3), Done, Done, Done, Reply.Panics]
  {
    hide Story, Made, Orphaned, FsAt, AllSteps, LinksCounted, NothingLost, Elems, LastName;
    PathElems();
    f, replies, ms := Session(Orphaning(), NINODES);
    OrphaningPanics(replies, ms);
  }
}
