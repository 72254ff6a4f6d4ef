/** Names and paths (fs.c): comparing and storing names, taking paths apart, directory operations and
    path lookup with its inode references. */
module Namei {

  import opened Options
  import opened Blocks
  import opened Volume
  import opened Dirents

  const SLASH: Byte := 47

  // ---------------------------------------------------------------- names

  lemma {:induction false} KeyShape(f: Name)
    ensures |Key(f)| <= |f| && Key(f) == f[..|Key(f)|]
    ensures forall k :: 0 <= k < |Key(f)| ==> f[k] != 0
    ensures |Key(f)| < |f| ==> f[|Key(f)|] == 0
    decreases |f|
  {
    if f != [] && f[0] != 0 {
      KeyShape(f[1..]);
      var n := |Key(f[1..])|;
      assert f[..n + 1] == [f[0]] + f[1..][..n];
    }
  }

  /** namecmp(): do a name and the name in an entry agree, as far as names count? */
  method Namecmp(s: Name, field: Name) returns (eq: bool)
    requires IsCString(s) && |field| == DIRSIZ
    ensures eq <==> Trunc(s) == Key(field)
  {
    KeyShape(field);
    hide Key;
    var p := 0;
    while p < DIRSIZ && p < |s| && s[p] == field[p]
      invariant 0 <= p <= DIRSIZ && p <= |s|
      invariant s[..p] == field[..p]
    {
      p := p + 1;
    }
    ghost var n := |Key(field)|;
    if p == DIRSIZ {
      assert forall k :: 0 <= k < DIRSIZ ==> field[k] == field[..p][k] == s[..p][k] == s[k];
      assert n == DIRSIZ;
      return true;
    }
    if p == |s| {
      assert forall k :: 0 <= k < p ==> field[k] == field[..p][k] == s[..p][k] == s[k];
      assert n >= p;
      return field[p] == 0;
    }
    assert Trunc(s)[p] == s[p];
    assert n > p ==> Key(field)[p] == field[p];
    return false;
  }

  /** strncpy() of a name into an entry. */
  method Strncpy(t: Name) returns (field: Name)
    requires IsCString(t)
    ensures field == Pad(t, DIRSIZ)
  {
    field := [];
    while |field| < DIRSIZ && |field| < |t|
      invariant |field| <= DIRSIZ && field <= t
    {
      field := field + [t[|field|]];
    }
    while |field| < DIRSIZ
      invariant |field| <= DIRSIZ && field == Pad(t, |field|)
    {
      field := field + [0];
    }
  }

  // ---------------------------------------------------------------- paths

  /** The pieces between slashes. */
  ghost function Parts(p: Name): (ps: seq<Name>)
    ensures ps != []
  {
    if p == [] then [[]]
    else
      var ps := Parts(p[1..]);
      if p[0] == SLASH then [[]] + ps else [[p[0]] + ps[0]] + ps[1..]
  }

  ghost function NonEmpty(ps: seq<Name>): (es: seq<Name>) {
    if ps == [] then [] else (if ps[0] == [] then [] else [ps[0]]) + NonEmpty(ps[1..])
  }

  /** The elements of a path: what is between slashes, empty pieces left out. */
  ghost function Elems(p: Name): (es: seq<Name>) {
    NonEmpty(Parts(p))
  }

  lemma {:induction false} ElemsSlash(p: Name)
    requires p != [] && p[0] == SLASH
    ensures Elems(p) == Elems(p[1..])
  {
    assert Parts(p)[1..] == Parts(p[1..]);
  }

  ghost predicate Word(w: Name) {
    forall k :: 0 <= k < |w| ==> w[k] != SLASH
  }

  lemma {:induction false} PartsWord(w: Name, rest: Name)
    requires Word(w) && (rest == [] || rest[0] == SLASH)
    ensures Parts(w + rest) == [w] + Parts(rest)[1..]
    decreases |w|
  {
    var p := w + rest;
    if w == [] {
      assert p == rest;
      assert Parts(rest)[0] == [];
    } else {
      assert p[1..] == w[1..] + rest;
      PartsWord(w[1..], rest);
      assert [w[0]] + w[1..] == w;
    }
  }

  lemma {:induction false} ElemsWord(w: Name, rest: Name)
    requires w != [] && Word(w) && (rest == [] || rest[0] == SLASH)
    ensures Elems(w + rest) == [w] + Elems(rest)
  {
    PartsWord(w, rest);
    var ps := Parts(rest);
    assert ps[0] == [];
    hide Parts;
    NonEmptyCons(w, ps[1..]);
    assert ps == [[]] + ps[1..];
    NonEmptyCons([], ps[1..]);
  }

  lemma {:induction false} NonEmptyCons(w: Name, ps: seq<Name>)
    ensures NonEmpty([w] + ps) == (if w == [] then [] else [w]) + NonEmpty(ps)
  {
    var all := [w] + ps;
    assert all[1..] == ps && all[0] == w;
  }

  /** An element taken off a path, and the path that is left. */
  datatype Skipped = End | Elem(name: Name, rest: Name)

  /** skipelem() */
  method SkipElem(path: Name) returns (r: Skipped)
    ensures r == End <==> Elems(path) == []
    ensures r.Elem? ==>
              && r.name == Trunc(Elems(path)[0])
              && Elems(r.rest) == Elems(path)[1..]
              && (r.rest == [] <==> |Elems(path)| == 1)
              && |r.rest| < |path| && r.rest == path[|path| - |r.rest|..]
  {
    hide Elems;
    var i := SkipSlashes(path);
    if i == |path| {
      ElemsNone();
      return End;
    }
    var n := WordLength(path, i);
    var s, after := path[i..i + n], path[i + n..];
    assert s + after == path[i..];
    ElemsWord(s, after);
    var j := SkipSlashes(after);
    var rest := after[j..];
    if rest == [] {
      ElemsNone();
    } else {
      ElemsSome(rest);
    }
    assert rest == path[|path| - |rest|..];
    r := Elem(if n >= DIRSIZ then s[..DIRSIZ] else s, rest);
  }

  /** The scan for the end of an element. */
  method WordLength(path: Name, i: nat) returns (n: nat)
    requires i < |path| && path[i] != SLASH
    ensures 0 < n <= |path| - i && Word(path[i..i + n])
    ensures i + n < |path| ==> path[i + n] == SLASH
  {
    n := 0;
    while i + n < |path| && path[i + n] != SLASH
      invariant 0 <= n <= |path| - i
      invariant forall k :: i <= k < i + n ==> path[k] != SLASH
    {
      n := n + 1;
    }
  }

  method SkipSlashes(path: Name) returns (i: nat)
    ensures i <= |path| && Elems(path[i..]) == Elems(path) && (i < |path| ==> path[i] != SLASH)
  {
    hide Elems;
    i := 0;
    assert path[0..] == path;
    while i < |path| && path[i] == SLASH
      invariant 0 <= i <= |path| && Elems(path[i..]) == Elems(path)
    {
      ElemsSlash(path[i..]);
      assert path[i..][1..] == path[i + 1..];
      i := i + 1;
    }
  }

  lemma {:induction false} ElemsNone()
    ensures Elems([]) == []
  {
    assert Parts([]) == [[]];
    var ps: seq<Name> := [[]];
    assert ps[1..] == [];
  }

  lemma {:induction false} ElemsSome(p: Name)
    requires p != [] && p[0] != SLASH
    ensures Elems(p) != []
  {
    assert Parts(p)[0] != [];
  }

  // ---------------------------------------------------------------- resolving

  datatype FileType = DirType | FileType | DevType

  datatype Node = Node(typ: FileType, nlink: nat, content: seq<Byte>)

  type Nodes = map<nat, Node>

  ghost predicate IsDirectory(ns: Nodes, i: nat) {
    i in ns && ns[i].typ == DirType
  }

  /** Directories are well formed. What they name need not exist: the ".." of a removed directory goes
      on naming its parent when the parent is gone. */
  ghost predicate DirsProper(ns: Nodes) {
    forall d :: IsDirectory(ns, d) ==> Proper(ns[d].content)
  }

  /** An inode without links lasts only as long as it is in use: a reference is held to it, and its
      cached copy has been read. */
  ghost predicate Held(ns: Nodes, refs: multiset<nat>, loaded: set<nat>) {
    forall i :: i in ns && ns[i].nlink == 0 ==> i in refs && i in loaded
  }

  /** What a path leads to: an inode, which is not looked at; nothing; or the panic for an inode that
      has no type, when the walk would go on from one that does not exist. */
  datatype Resolved = Reached(i: nat) | Missing | NoType

  /** Following path elements from inode `i`. */
  ghost function Walk(ns: Nodes, i: nat, es: seq<Name>): (r: Resolved)
    decreases |es|
  {
    if es == [] then Reached(i)
    else if i !in ns then NoType
    else if !IsDirectory(ns, i) || Trunc(es[0]) !in AsMap(ns[i].content) then Missing
    else Walk(ns, AsMap(ns[i].content)[Trunc(es[0])], es[1..])
  }

  /** The inode of a path, or the directory its last element is to be found in. */
  ghost function Resolve(ns: Nodes, i: nat, es: seq<Name>, parent: bool): (r: Resolved) {
    if !parent then Walk(ns, i, es)
    else if es == [] then Missing
    else
      match Walk(ns, i, es[..|es| - 1])
      case Missing => Missing
      case NoType => NoType
      case Reached(d) => if d !in ns then NoType else if IsDirectory(ns, d) then Reached(d) else Missing
  }

  lemma {:induction false} ResolveStep(ns: Nodes, i: nat, es: seq<Name>, parent: bool)
    requires es != []
    ensures i !in ns ==> Resolve(ns, i, es, parent) == NoType
    ensures i in ns && !IsDirectory(ns, i) ==> Resolve(ns, i, es, parent) == Missing
    ensures IsDirectory(ns, i) && parent && |es| == 1 ==> Resolve(ns, i, es, parent) == Reached(i)
    ensures IsDirectory(ns, i) && !(parent && |es| == 1) ==>
              Resolve(ns, i, es, parent)
              == if Trunc(es[0]) !in AsMap(ns[i].content) then Missing
                 else Resolve(ns, AsMap(ns[i].content)[Trunc(es[0])], es[1..], parent)
  {
    hide AsMap;
    if parent {
      var front := es[..|es| - 1];
      if |es| == 1 {
        assert front == [];
      } else {
        assert front[0] == es[0] && front[1..] == es[1..][..|es| - 2];
      }
    }
  }

  /** Lookup depends on types and contents, not on link counts. */
  ghost predicate SameDirs(ns: Nodes, ms: Nodes) {
    ns.Keys == ms.Keys && forall i :: i in ns ==> ms[i].typ == ns[i].typ && ms[i].content == ns[i].content
  }

  lemma {:induction false} WalkSame(ns: Nodes, ms: Nodes, i: nat, es: seq<Name>)
    requires SameDirs(ns, ms)
    ensures Walk(ms, i, es) == Walk(ns, i, es)
    decreases |es|
  {
    hide AsMap;
    if es != [] && IsDirectory(ns, i) && Trunc(es[0]) in AsMap(ns[i].content) {
      WalkSame(ns, ms, AsMap(ns[i].content)[Trunc(es[0])], es[1..]);
    }
  }

  lemma {:induction false} ResolveSame(ns: Nodes, ms: Nodes, i: nat, es: seq<Name>, parent: bool)
    requires SameDirs(ns, ms)
    ensures Resolve(ms, i, es, parent) == Resolve(ns, i, es, parent)
  {
    hide Walk, AsMap;
    WalkSame(ns, ms, i, es);
    if es != [] {
      WalkSame(ns, ms, i, es[..|es| - 1]);
    }
  }

  datatype Found = Found(inum: nat, off: nat)

  datatype LinkOutcome = Linked | Exists | NoRoom

  const DOT: Name := [46]
  const DOTDOT: Name := [46, 46]

  /** The first entry not in use, possibly past the end. */
  ghost predicate FirstFree(c: seq<Byte>, k: nat) {
    !Live(c, k) && forall l :: 0 <= l < k ==> Live(c, l)
  }

  /** No entry is unused, and the file cannot grow by one. */
  ghost predicate Packed(c: seq<Byte>) {
    |c| + DESIZE > MAXBYTES && FirstFree(c, Count(c))
  }

  /** A directory begins with its entries for itself and its parent. */
  ghost predicate DotsFirst(c: seq<Byte>) {
    Names(c, 0, DOT) && Names(c, 1, DOTDOT)
  }

  /** Inodes with their contents, and the references the kernel holds to them. */
  class Files {
    var nodes: Nodes
    var refs: multiset<nat>

    /** Inodes whose cached copy has been read from disk. */
    var loaded: set<nat>

    /** The root directory, without entries, and the first process's reference to it. */
    constructor (root: nat)
      ensures nodes == map[root := Node(DirType, 1, [])] && refs == multiset{root} && loaded == {}
    {
      nodes := map[root := Node(DirType, 1, [])];
      refs := multiset{root};
      loaded := {};
    }

    /** iget(), idup(): one more reference. */
    method Iget(i: nat)
      modifies this`refs, this`loaded
      ensures refs == old(refs) + multiset{i}
      ensures loaded == if i in old(refs) then old(loaded) else old(loaded) - {i}
    {
      if i !in refs {
        loaded := loaded - {i};
      }
      refs := refs + multiset{i};
    }

    /** ilock(): reads the inode; there is a panic if it does not exist. */
    method Ilock(i: nat) returns (ok: bool)
      requires i in refs
      modifies this`loaded
      ensures ok <==> i in nodes
      ensures loaded == if ok then old(loaded) + {i} else old(loaded)
    {
      ok := i in nodes;
      if ok {
        loaded := loaded + {i};
      }
    }

    /** iput(): one reference less; the last reference to an inode without links frees it. */
    method Iput(i: nat)
      requires i in refs
      modifies this`nodes, this`refs, this`loaded
      ensures refs == old(refs) - multiset{i}
      ensures if i in old(loaded) && i in old(nodes) && old(nodes)[i].nlink == 0 && old(refs)[i] == 1
              then nodes == old(nodes) - {i} && loaded == old(loaded) - {i}
              else nodes == old(nodes) && loaded == old(loaded)
    {
      if i in loaded && i in nodes && nodes[i].nlink == 0 {
        if refs[i] == 1 {
          nodes := nodes - {i};
          loaded := loaded - {i};
        }
      }
      refs := refs - multiset{i};
    }

    /** dirlookup(): finds the entry the map has for the name, and takes a reference to its inode. */
    method DirLookup(dp: nat, name: Name) returns (r: Option<Found>)
      requires IsDirectory(nodes, dp) && Proper(nodes[dp].content) && IsCString(name)
      modifies this`refs, this`loaded
      ensures r.Some? <==> Trunc(name) in AsMap(nodes[dp].content)
      ensures r.Some? ==>
                && r.value.inum == AsMap(nodes[dp].content)[Trunc(name)]
                && Names(nodes[dp].content, r.value.off, Trunc(name))
                && refs == old(refs) + multiset{r.value.inum}
                && loaded == if r.value.inum in old(refs) then old(loaded) else old(loaded) - {r.value.inum}
      ensures r.None? ==> refs == old(refs) && loaded == old(loaded)
    {
      hide Trunc, AsMap, Keys;
      var c := nodes[dp].content;
      var k := 0;
      while DESIZE * k < |c|
        invariant 0 <= k <= Count(c) && refs == old(refs) && loaded == old(loaded)
        invariant forall l :: 0 <= l < k ==> !Names(c, l, Trunc(name))
      {
        assert DESIZE * k + DESIZE <= |c|;
        if Inum(c, k) != 0 {
          var eq := Namecmp(name, Field(c, k));
          if eq {
            AsMapAt(c, k);
            Iget(Inum(c, k));
            return Some(Found(Inum(c, k), k));
          }
        }
        k := k + 1;
      }
      KeysAre(c, Trunc(name));
      r := None;
    }

    /** dirlink(): adds the name to the map, unless it is there already. It frees nothing: a copy that
        dirlookup() brought in has not been read when it is put back. */
    method DirLink(dp: nat, name: Name, inum: nat) returns (r: LinkOutcome, ghost at: nat)
      requires IsDirectory(nodes, dp) && Proper(nodes[dp].content)
      requires IsCString(name) && 0 < inum < 0x1_0000
      modifies this`nodes, this`refs, this`loaded
      ensures refs == old(refs) && forall i :: i in refs ==> (i in loaded <==> i in old(loaded))
      ensures r == Exists <==> Trunc(name) in AsMap(old(nodes)[dp].content)
      ensures r != Linked ==> nodes == old(nodes)
      ensures r == NoRoom <==> Trunc(name) !in AsMap(old(nodes)[dp].content) && Packed(old(nodes)[dp].content)
      ensures r == Linked ==>
                && dp in nodes && nodes == old(nodes)[dp := old(nodes)[dp].(content := nodes[dp].content)]
                && Proper(nodes[dp].content)
                && AsMap(nodes[dp].content) == AsMap(old(nodes)[dp].content)[Trunc(name) := inum]
                && |nodes[dp].content| <= |old(nodes)[dp].content| + DESIZE
                && FirstFree(old(nodes)[dp].content, at)
                && (forall l: nat, n: Name :: Names(nodes[dp].content, l, n) <==>
                      if l == at then n == Trunc(name) else Names(old(nodes)[dp].content, l, n))
    {
      hide Trunc, AsMap, Keys, Key, Pad, Put;
      at := 0;
      var c := nodes[dp].content;
      var found := DirLookup(dp, name);
      if found.Some? {
        Iput(found.value.inum);
        assert refs == old(refs);
        return Exists, at;
      }
      var k := FirstUnused(c);
      at := k;
      OneFirst(c, k, Count(c));
      if k == Count(c) && |c| + DESIZE > MAXBYTES {
        return NoRoom, at;
      }
      var field := Strncpy(name);
      FieldKey(name);
      PutNew(c, k, inum, field);
      PutShape(c, k, inum, field);
      forall l: nat, n: Name
        ensures Names(Put(c, k, inum, field), l, n) <==> if l == k then n == Trunc(name) else Names(c, l, n)
      {
        PutNames(c, k, inum, field, l, n);
      }
      nodes := nodes[dp := nodes[dp].(content := Put(c, k, inum, field))];
      r := Linked;
    }

    /** The search for an empty entry in dirlink(). */
    static method FirstUnused(c: seq<Byte>) returns (k: nat)
      requires Proper(c)
      ensures k <= Count(c) && FirstFree(c, k)
    {
      k := 0;
      while DESIZE * k < |c|
        invariant 0 <= k <= Count(c)
        invariant forall l :: 0 <= l < k ==> Live(c, l)
      {
        assert DESIZE * k + DESIZE <= |c|;
        if Inum(c, k) == 0 {
          return;
        }
        k := k + 1;
      }
    }

    /** The clearing of an entry in sys_unlink(). */
    method EraseEntry(dp: nat, off: nat)
      requires IsDirectory(nodes, dp) && Proper(nodes[dp].content) && Live(nodes[dp].content, off)
      modifies this`nodes
      ensures dp in nodes && nodes == old(nodes)[dp := old(nodes)[dp].(content := nodes[dp].content)]
      ensures Proper(nodes[dp].content)
      ensures AsMap(nodes[dp].content) == AsMap(old(nodes)[dp].content) - {NameAt(old(nodes)[dp].content, off)}
      ensures DotsFirst(old(nodes)[dp].content) && off >= 2 ==> DotsFirst(nodes[dp].content)
    {
      hide AsMap, Keys, Key, Put;
      var c := nodes[dp].content;
      var zero := seq(DIRSIZ, _ => 0);
      PutNothing(c, off, zero);
      PutNames(c, off, 0, zero, 0, DOT);
      PutNames(c, off, 0, zero, 1, DOTDOT);
      nodes := nodes[dp := nodes[dp].(content := Put(c, off, 0, zero))];
    }

    /** isdirempty(): nothing but the entries for itself and its parent. */
    method IsDirEmpty(dp: nat) returns (b: bool)
      requires IsDirectory(nodes, dp) && Proper(nodes[dp].content) && DotsFirst(nodes[dp].content)
      ensures b <==> AsMap(nodes[dp].content).Keys == {DOT, DOTDOT}
    {
      hide AsMap, Keys, Key;
      var c := nodes[dp].content;
      KeysAre(c, DOT);
      KeysAre(c, DOTDOT);
      var k := 2;
      while DESIZE * k < |c|
        invariant 2 <= k <= Count(c)
        invariant forall l :: 2 <= l < k ==> !Live(c, l)
      {
        assert DESIZE * k + DESIZE <= |c|;
        if Inum(c, k) != 0 {
          OtherName(c, k);
          return false;
        }
        k := k + 1;
      }
      OnlyDots(c);
      b := true;
    }

    /** namex(): resolves a path, and holds one reference more for the inode it returns and none if
        it returns none. No inode is freed on the way. */
    method Namex(path: Name, parent: bool, cwd: nat, root: nat) returns (r: Resolved, name: Name)
      requires IsCString(path) && DirsProper(nodes) && Held(nodes, refs, loaded)
      modifies this`nodes, this`refs, this`loaded
      ensures nodes == old(nodes) && Held(nodes, old(refs), loaded)
      ensures r == Resolve(nodes, if path != [] && path[0] == SLASH then root else cwd, Elems(path), parent)
      ensures r.Reached? && parent ==> Elems(path) != [] && name == Trunc(Elems(path)[|Elems(path)| - 1])
      ensures r.Reached? ==> refs == old(refs) + multiset{r.i}
      ensures r.Missing? ==> refs == old(refs)
    {
      hide Elems, DirsProper, AsMap, Resolve, Trunc, IsCString, Held;
      var ip: nat := if path != [] && path[0] == SLASH then root else cwd;
      ghost var start, all := ip, Elems(path);
      HeldGet(nodes, refs, loaded, ip);
      Iget(ip);
      var p := path;
      name := [];
      while true
        invariant nodes == old(nodes) && refs == old(refs) + multiset{ip} && IsCString(p)
        invariant Held(nodes, old(refs), loaded)
        invariant Resolve(nodes, ip, Elems(p), parent) == Resolve(nodes, start, all, parent)
        invariant Elems(p) != [] ==> all != [] && Elems(p)[|Elems(p)| - 1] == all[|all| - 1]
        decreases |p|
      {
        var sk := SkipElem(p);
        if sk == End {
          break;
        }
        name := sk.name;
        var st := NextElem(ip, sk, parent, p, old(refs));
        if st.Stop? {
          return st.r, name;
        }
        StringTail(p, |p| - |sk.rest|);
        ghost var es := Elems(p);
        ip, p := st.next, sk.rest;
        assert Elems(p) != [] ==> Elems(p)[|Elems(p)| - 1] == es[|es| - 1];
      }
      ResolveEnd(nodes, ip, parent);
      if parent {
        Drop(ip, old(refs));
        return Missing, name;
      }
      r := Reached(ip);
    }

    /** One round of namex(). */
    method NextElem(ip: nat, sk: Skipped, parent: bool, ghost p: Name, ghost was: multiset<nat>) returns (st: Stepped)
      requires IsCString(p) && DirsProper(nodes) && sk.Elem? && Elems(p) != []
      requires sk.name == Trunc(Elems(p)[0]) && Elems(sk.rest) == Elems(p)[1..] && (sk.rest == [] <==> |Elems(p)| == 1)
      requires refs == was + multiset{ip} && Held(nodes, was, loaded)
      modifies this`nodes, this`refs, this`loaded
      ensures nodes == old(nodes) && Held(nodes, was, loaded)
      ensures st.Stop? ==>
                && st.r == Resolve(nodes, ip, Elems(p), parent)
                && (st.r.Reached? ==> parent && |Elems(p)| == 1 && st.r.i == ip && refs == was + multiset{ip})
                && (st.r.Missing? ==> refs == was)
      ensures st.Go? ==>
                && refs == was + multiset{st.next}
                && Resolve(nodes, st.next, Elems(sk.rest), parent) == Resolve(nodes, ip, Elems(p), parent)
    {
      hide Elems, DirsProper, AsMap, Resolve, Trunc, IsCString, Proper, Held;
      ResolveStep(nodes, ip, Elems(p), parent);
      var ok := Ilock(ip);
      if !ok {
        return Stop(NoType);
      }
      HeldLock(nodes, was, old(loaded), ip);
      if nodes[ip].typ != DirType {
        Drop(ip, was);
        return Stop(Missing);
      }
      if parent && sk.rest == [] {
        return Stop(Reached(ip));
      }
      ProperAt(nodes, ip);
      TruncIdem(Elems(p)[0]);
      ElemString(p, 0);
      ghost var before := loaded;
      var next := DirLookup(ip, sk.name);
      if next.None? {
        Drop(ip, was);
        return Stop(Missing);
      }
      HeldGet(nodes, was, before, next.value.inum);
      DropFor(ip, next.value.inum, was);
      st := Go(next.value.inum);
    }

    /** iput() of a reference beside those of `was`, which frees nothing. */
    method Drop(ip: nat, ghost was: multiset<nat>)
      requires refs == was + multiset{ip} && Held(nodes, was, loaded)
      modifies this`nodes, this`refs, this`loaded
      ensures nodes == old(nodes) && refs == was && loaded == old(loaded)
    {
      Iput(ip);
    }

    method DropFor(ip: nat, next: nat, ghost was: multiset<nat>)
      requires refs == was + multiset{ip} + multiset{next} && Held(nodes, was, loaded)
      modifies this`nodes, this`refs, this`loaded
      ensures nodes == old(nodes) && refs == was + multiset{next} && loaded == old(loaded)
    {
      Iput(ip);
      assert refs == was + multiset{next};
    }
  }

  /** Where one round of namex() got to. */
  datatype Stepped = Stop(r: Resolved) | Go(next: nat)

  /** iget() of whatever inode keeps those without links in use. */
  lemma {:induction false} HeldGet(ns: Nodes, refs: multiset<nat>, loaded: set<nat>, i: nat)
    requires Held(ns, refs, loaded)
    ensures Held(ns, refs, loaded - {i}) || i in refs
  {
  }

  lemma {:induction false} HeldLock(ns: Nodes, refs: multiset<nat>, loaded: set<nat>, i: nat)
    requires Held(ns, refs, loaded)
    ensures Held(ns, refs, loaded + {i})
  {
  }

  lemma {:induction false} OneFirst(c: seq<Byte>, k: nat, l: nat)
    requires FirstFree(c, k)
    ensures FirstFree(c, l) <==> k == l
  {
  }

  lemma {:induction false} ResolveEnd(ns: Nodes, i: nat, parent: bool)
    ensures Resolve(ns, i, [], parent) == if parent then Missing else Reached(i)
  {
  }

  lemma {:induction false} StringTail(p: Name, n: nat)
    requires IsCString(p) && n <= |p|
    ensures IsCString(p[n..])
  {
  }

  lemma {:induction false} FieldKey(name: Name)
    requires IsCString(name)
    ensures Key(Pad(name, DIRSIZ)) == Trunc(name)
  {
    KeyPad(name, DIRSIZ);
  }

  lemma {:induction false} OtherName(c: seq<Byte>, k: nat)
    requires Proper(c) && DotsFirst(c) && k >= 2 && Live(c, k)
    ensures AsMap(c).Keys != {DOT, DOTDOT}
  {
    hide Key, Keys;
    KeysAre(c, NameAt(c, k));
    assert Names(c, k, NameAt(c, k));
  }

  lemma {:induction false} OnlyDots(c: seq<Byte>)
    requires Proper(c) && DotsFirst(c) && forall l :: 2 <= l < Count(c) ==> !Live(c, l)
    ensures AsMap(c).Keys == {DOT, DOTDOT}
  {
    hide Key, Keys;
    forall n
      ensures n in AsMap(c).Keys <==> n in {DOT, DOTDOT}
    {
      KeysAre(c, n);
      if n in AsMap(c).Keys {
        var k: nat :| Names(c, k, n);
        assert k < Count(c);
      }
      if n == DOT {
        assert Names(c, 0, n);
      }
      if n == DOTDOT {
        assert Names(c, 1, n);
      }
    }
  }

  lemma {:induction false} ProperAt(ns: Nodes, d: nat)
    requires DirsProper(ns) && IsDirectory(ns, d)
    ensures Proper(ns[d].content)
  {
  }

  lemma {:induction false} TruncIdem(n: Name)
    ensures Trunc(Trunc(n)) == Trunc(n)
  {
  }

  /** Elements of a C string are C strings. */
  lemma {:induction false} ElemString(p: Name, k: nat)
    requires IsCString(p) && k < |Elems(p)|
    ensures IsCString(Trunc(Elems(p)[k]))
  {
    PartsString(p);
    NonEmptyIn(Parts(p));
    var e := Elems(p)[k];
    assert e in Elems(p) && e in Parts(p);
    var l :| 0 <= l < |Parts(p)| && Parts(p)[l] == e;
    assert IsCString(e);
  }

  lemma {:induction false} PartsString(p: Name)
    requires IsCString(p)
    ensures forall k :: 0 <= k < |Parts(p)| ==> IsCString(Parts(p)[k])
    decreases |p|
  {
    if p != [] {
      PartsString(p[1..]);
      var ps := Parts(p[1..]);
      assert IsCString(ps[0]);
    }
  }

  lemma {:induction false} NonEmptyIn(ps: seq<Name>)
    ensures forall e :: e in NonEmpty(ps) ==> e in ps
    decreases |ps|
  {
    if ps != [] {
      NonEmptyIn(ps[1..]);
    }
  }
}
