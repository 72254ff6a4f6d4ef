/** Physical pages and two-level page tables (kalloc.c, vm.c) as values: where every page of memory
    is, and the steps that move one page from one place to another. */
module Paging {

  import opened Blocks

  const NPDENTRIES := 1024
  const NPTENTRIES := 1024

  /** Directory entries below this one belong to user memory (KERNBASE >> PDXSHIFT). */
  const USERPDES := 512

  const PTE_W := 2
  const PTE_U := 4

  type Frame = nat

  datatype Entry = Absent | Present(frame: Frame, flags: nat)

  /** A page is used as a table or as plain memory. */
  datatype Page = Data(bytes: seq<Byte>) | Table(entries: seq<Entry>)

  type Mem = map<Frame, Page>

  /** The one place a page is in: the free list, in the hands of some part of the kernel, a page
      directory, the page table at index `i` of directory `d`, or user memory at `(i, j)` of `d`. */
  datatype Place =
    | Free
    | Held
    | Dir
    | Tab(d: Frame, i: nat)
    | User(d: Frame, i: nat, j: nat)

  type Places = map<Frame, Place>

  function Zeros(): (es: seq<Entry>)
    ensures |es| == NPDENTRIES && forall k :: 0 <= k < |es| ==> es[k] == Absent
  {
    seq(NPDENTRIES, _ => Absent)
  }

  predicate TableAt(m: Mem, f: Frame) {
    f in m && m[f].Table? && |m[f].entries| == NPDENTRIES
  }

  /** The directory entry `i`. */
  function Pde(m: Mem, d: Frame, i: nat): (e: Entry) {
    if TableAt(m, d) && i < NPDENTRIES then m[d].entries[i] else Absent
  }

  /** The table entry `j` beneath directory entry `i`. */
  function Pte(m: Mem, d: Frame, i: nat, j: nat): (e: Entry) {
    match Pde(m, d, i)
    case Absent => Absent
    case Present(t, _) => if TableAt(m, t) && j < NPTENTRIES then m[t].entries[j] else Absent
  }

  function SetEntry(m: Mem, t: Frame, k: nat, e: Entry): (r: Mem)
    requires TableAt(m, t) && k < NPDENTRIES
    ensures r.Keys == m.Keys && TableAt(r, t)
    ensures forall f :: f in m && f != t ==> r[f] == m[f]
    ensures r[t].entries == m[t].entries[k := e]
  {
    m[t := Table(m[t].entries[k := e])]
  }

  // ---------------------------------------------------------------- every page in one place

  /** Directory `d` refers to page tables of its own, and restricts nothing: what may be done with a page is
      left to its entry in the page table. */
  ghost predicate DirOk(m: Mem, place: Places, d: Frame) {
    && TableAt(m, d)
    && forall i :: 0 <= i < NPDENTRIES && Pde(m, d, i).Present? ==>
         Pde(m, d, i).frame in place && place[Pde(m, d, i).frame] == Tab(d, i) && Pde(m, d, i).flags == PTE_W + PTE_U
  }

  ghost predicate UserPtesOk(m: Mem, place: Places, d: Frame) {
    forall i, j :: 0 <= i < USERPDES && 0 <= j < NPTENTRIES && Pte(m, d, i, j).Present? ==>
      Pte(m, d, i, j).frame in place && place[Pte(m, d, i, j).frame] == User(d, i, j)
  }

  ghost predicate IsDir(place: Places, d: Frame) {
    d in place && place[d] == Dir
  }

  ghost predicate TabOk(m: Mem, place: Places, t: Frame, d: Frame, i: nat) {
    && i < NPDENTRIES && IsDir(place, d) && TableAt(m, t)
    && Pde(m, d, i).Present? && Pde(m, d, i).frame == t
  }

  ghost predicate UserOk(m: Mem, place: Places, f: Frame, d: Frame, i: nat, j: nat) {
    && i < USERPDES && j < NPTENTRIES && IsDir(place, d) && f in m && m[f].Data?
    && Pte(m, d, i, j).Present? && Pte(m, d, i, j).frame == f
  }

  ghost predicate FrameOk(m: Mem, free: seq<Frame>, place: Places, f: Frame)
    requires f in place
  {
    match place[f]
    case Free => f in free && f in m && m[f].Data?
    case Held => f in m && m[f].Data?
    case Dir => DirOk(m, place, f) && UserPtesOk(m, place, f)
    case Tab(d, i) => TabOk(m, place, f, d, i)
    case User(d, i, j) => UserOk(m, place, f, d, i, j)
  }

  ghost predicate FreeOk(free: seq<Frame>, place: Places) {
    && (forall k :: 0 <= k < |free| ==> free[k] in place && place[free[k]] == Free)
    && (forall k, l :: 0 <= k < l < |free| ==> free[k] != free[l])
  }

  /** Every managed page is exactly where `place` says: what is at a place is that page, and the
      page is nowhere else. */
  ghost predicate Sound(m: Mem, free: seq<Frame>, place: Places) {
    && place.Keys == m.Keys && FreeOk(free, place)
    && forall f :: f in place ==> FrameOk(m, free, place, f)
  }

  // ---------------------------------------------------------------- exactly one place

  /** The places that the memory itself says a page is in. */
  ghost predicate Lies(m: Mem, free: seq<Frame>, place: Places, f: Frame, p: Place) {
    match p
    case Free => f in free
    case Held => f in place && place[f] == Held
    case Dir => IsDir(place, f)
    case Tab(d, i) => IsDir(place, d) && i < NPDENTRIES && Pde(m, d, i).Present? && Pde(m, d, i).frame == f
    case User(d, i, j) =>
      && IsDir(place, d) && i < USERPDES && j < NPTENTRIES
      && Pte(m, d, i, j).Present? && Pte(m, d, i, j).frame == f
  }

  /** No page is in two places, and none is lost. */
  lemma {:induction false} OnePlace(m: Mem, free: seq<Frame>, place: Places, f: Frame, p: Place)
    requires Sound(m, free, place) && f in m
    ensures Lies(m, free, place, f, p) <==> place[f] == p
  {
    match p {
      case Free =>
        if f in free {
          var k :| 0 <= k < |free| && free[k] == f;
        }
        assert FrameOk(m, free, place, f);
      case Held =>
      case Dir =>
      case Tab(d, i) =>
        assert FrameOk(m, free, place, f);
        if Lies(m, free, place, f, p) {
          assert FrameOk(m, free, place, d);
        }
      case User(d, i, j) =>
        assert FrameOk(m, free, place, f);
        if Lies(m, free, place, f, p) {
          assert FrameOk(m, free, place, d);
        }
    }
  }

  // ---------------------------------------------------------------- pages that stand alone

  /** No table refers to `f`. */
  ghost predicate Loose(m: Mem, place: Places, f: Frame) {
    && f in place && (place[f] == Free || place[f] == Held || place[f] == Dir)
    && forall i :: 0 <= i < NPDENTRIES ==> Pde(m, f, i) == Absent
  }

  lemma {:induction false} FreeOrHeldIsLoose(m: Mem, free: seq<Frame>, place: Places, f: Frame)
    requires Sound(m, free, place) && f in place && (place[f] == Free || place[f] == Held)
    ensures Loose(m, place, f)
  {
    assert FrameOk(m, free, place, f);
  }

  /** Other directories do not see a loose page change. */
  lemma {:induction false} DirKept(m: Mem, r: Mem, place: Places, f: Frame, p: Place, d: Frame)
    requires DirOk(m, place, d) && UserPtesOk(m, place, d) && f != d && r.Keys == m.Keys
    requires f in place && !place[f].Tab? && !place[f].User?
    requires forall g :: g in m && g != f ==> r[g] == m[g]
    ensures DirOk(r, place[f := p], d) && UserPtesOk(r, place[f := p], d)
  {
    forall i | 0 <= i < NPDENTRIES
      ensures Pde(r, d, i) == Pde(m, d, i)
    {
    }
    forall i, j | 0 <= i < USERPDES && 0 <= j < NPTENTRIES
      ensures Pte(r, d, i, j) == Pte(m, d, i, j)
    {
      PteKept(m, r, place, f, d, i, j);
    }
  }

  lemma {:induction false} PteKept(m: Mem, r: Mem, place: Places, f: Frame, d: Frame, i: nat, j: nat)
    requires DirOk(m, place, d) && f != d && i < NPDENTRIES && r.Keys == m.Keys
    requires f in place && !place[f].Tab?
    requires forall g :: g in m && g != f ==> r[g] == m[g]
    ensures Pde(r, d, i) == Pde(m, d, i) && Pte(r, d, i, j) == Pte(m, d, i, j)
  {
    if Pde(m, d, i).Present? {
      assert Pde(m, d, i).frame != f;
    }
  }

  /** A loose page can move between the free list, the kernel's hands and being an empty directory. */
  lemma {:induction false} MoveLoose(m: Mem, free: seq<Frame>, place: Places, f: Frame, page: Page, list: seq<Frame>, p: Place)
    requires Sound(m, free, place) && Loose(m, place, f)
    requires FreeOk(list, place[f := p]) && FrameOk(m[f := page], list, place[f := p], f)
    requires forall g :: g in free && g != f ==> g in list
    ensures Sound(m[f := page], list, place[f := p])
  {
    var r := m[f := page];
    var q := place[f := p];
    forall g | g in q
      ensures FrameOk(r, list, q, g)
    {
      if g != f {
        assert FrameOk(m, free, place, g);
        MoveLooseAt(m, free, place, f, page, list, p, g);
      }
    }
  }

  lemma {:induction false} MoveLooseAt(m: Mem, free: seq<Frame>, place: Places, f: Frame, page: Page, list: seq<Frame>, p: Place, g: Frame)
    requires Sound(m, free, place) && Loose(m, place, f) && g in place && g != f
    requires forall h :: h in free && h != f ==> h in list
    ensures FrameOk(m[f := page], list, place[f := p], g)
  {
    var r := m[f := page];
    assert FrameOk(m, free, place, g);
    match place[g] {
      case Free =>
      case Held =>
      case Dir => DirKept(m, r, place, f, p, g);
      case Tab(d, i) =>
        assert FrameOk(m, free, place, d);
        PteKept(m, r, place, f, d, i, 0);
      case User(d, i, j) =>
        assert FrameOk(m, free, place, d);
        PteKept(m, r, place, f, d, i, j);
    }
  }

  /** kalloc() */
  lemma {:induction false} Take(m: Mem, free: seq<Frame>, place: Places)
    requires Sound(m, free, place) && free != []
    ensures free[0] in place && place[free[0]] == Free && free[0] !in free[1..]
    ensures Sound(m, free[1..], place[free[0] := Held])
  {
    var f := free[0];
    assert FrameOk(m, free, place, f);
    FreeOrHeldIsLoose(m, free, place, f);
    assert m[f := m[f]] == m;
    forall g | g in free && g != f
      ensures g in free[1..]
    {
      var k :| 0 <= k < |free| && free[k] == g;
      assert free[1..][k - 1] == g;
    }
    MoveLoose(m, free, place, f, m[f], free[1..], Held);
  }

  /** kfree() */
  lemma {:induction false} Give(m: Mem, free: seq<Frame>, place: Places, f: Frame, bytes: seq<Byte>)
    requires Sound(m, free, place) && f in place && place[f] == Held
    ensures f !in free
    ensures Sound(m[f := Data(bytes)], [f] + free, place[f := Free])
  {
    FreeOrHeldIsLoose(m, free, place, f);
    var list := [f] + free;
    var q := place[f := Free];
    assert FreeOk(list, q) by {
      forall k | 0 <= k < |list|
        ensures list[k] in q && q[list[k]] == Free
      {
      }
    }
    MoveLoose(m, free, place, f, Data(bytes), list, Free);
  }

  /** Writing to a page in hand. */
  lemma {:induction false} Fill(m: Mem, free: seq<Frame>, place: Places, f: Frame, bytes: seq<Byte>)
    requires Sound(m, free, place) && f in place && place[f] == Held
    ensures Sound(m[f := Data(bytes)], free, place)
  {
    FreeOrHeldIsLoose(m, free, place, f);
    assert place[f := Held] == place;
    MoveLoose(m, free, place, f, Data(bytes), free, Held);
  }

  /** A page in hand becomes an empty directory. */
  lemma {:induction false} NewDir(m: Mem, free: seq<Frame>, place: Places, f: Frame)
    requires Sound(m, free, place) && f in place && place[f] == Held
    ensures Sound(m[f := Table(Zeros())], free, place[f := Dir])
  {
    FreeOrHeldIsLoose(m, free, place, f);
    var r := m[f := Table(Zeros())];
    assert FrameOk(r, free, place[f := Dir], f) by {
      assert forall i :: 0 <= i < NPDENTRIES ==> Pde(r, f, i) == Absent;
    }
    MoveLoose(m, free, place, f, Table(Zeros()), free, Dir);
  }

  /** A directory with no tables left goes back to the kernel's hands. */
  lemma {:induction false} DropDir(m: Mem, free: seq<Frame>, place: Places, f: Frame, bytes: seq<Byte>)
    requires Sound(m, free, place) && IsDir(place, f)
    requires forall i :: 0 <= i < NPDENTRIES ==> Pde(m, f, i) == Absent
    ensures Sound(m[f := Data(bytes)], free, place[f := Held])
  {
    MoveLoose(m, free, place, f, Data(bytes), free, Held);
  }

  // ---------------------------------------------------------------- table entries

  /** Writing one table entry changes exactly one translation. */
  lemma {:induction false} PteAfter(m: Mem, free: seq<Frame>, place: Places, d: Frame, i: nat, j: nat, e: Entry, d': Frame, i': nat, j': nat)
    requires Sound(m, free, place) && IsDir(place, d) && IsDir(place, d')
    requires i < NPDENTRIES && j < NPTENTRIES && i' < NPDENTRIES && j' < NPTENTRIES
    requires Pde(m, d, i).Present?
    ensures var t := Pde(m, d, i).frame;
            && TableAt(m, t)
            && var r := SetEntry(m, t, j, e);
            && TableAt(r, d') && Pde(r, d', i') == Pde(m, d', i')
            && Pte(r, d', i', j') == if d' == d && i' == i && j' == j then e else Pte(m, d', i', j')
  {
    assert FrameOk(m, free, place, d);
    assert FrameOk(m, free, place, d');
    assert FrameOk(m, free, place, Pde(m, d, i).frame);
    if Pde(m, d', i').Present? {
      assert FrameOk(m, free, place, Pde(m, d', i').frame);
    }
  }

  /** The table a directory entry points to. */
  lemma {:induction false} TableOf(m: Mem, free: seq<Frame>, place: Places, d: Frame, i: nat)
    requires Sound(m, free, place) && IsDir(place, d) && i < NPDENTRIES && Pde(m, d, i).Present?
    ensures var t := Pde(m, d, i).frame; t in place && place[t] == Tab(d, i) && TableAt(m, t)
  {
    assert FrameOk(m, free, place, d);
    assert FrameOk(m, free, place, Pde(m, d, i).frame);
  }

  /** An entry of a table changes, along with the place of at most one page `f`, which is not itself
      part of any page table. */
  ghost predicate Rewired(m: Mem, free: seq<Frame>, place: Places, d: Frame, i: nat, j: nat, e: Entry, f: Frame, p: Place) {
    && IsDir(place, d) && i < NPDENTRIES && j < NPTENTRIES && Pde(m, d, i).Present?
    && f in m && f in place && m[f].Data? && (place[f] == Held || place[f] == User(d, i, j))
    && (p == Held || p == User(d, i, j))
    && (Pte(m, d, i, j).Present? && i < USERPDES ==> Pte(m, d, i, j).frame == f)
    && (place[f].User? <==> i < USERPDES && Pte(m, d, i, j).Present?)
    && (p.User? <==> i < USERPDES && e.Present?)
    && (p.User? ==> e.frame == f)
  }

  lemma {:induction false} RewireDir(m: Mem, free: seq<Frame>, place: Places, d: Frame, i: nat, j: nat, e: Entry, f: Frame, p: Place, g: Frame)
    requires Sound(m, free, place) && Rewired(m, free, place, d, i, j, e, f, p) && IsDir(place, g)
    requires TableAt(m, Pde(m, d, i).frame)
    ensures DirOk(SetEntry(m, Pde(m, d, i).frame, j, e), place[f := p], g)
  {
    var r := SetEntry(m, Pde(m, d, i).frame, j, e);
    var q := place[f := p];
    assert FrameOk(m, free, place, g);
    forall i' | 0 <= i' < NPDENTRIES
      ensures Pde(r, g, i') == Pde(m, g, i')
    {
      PteAfter(m, free, place, d, i, j, e, g, i', 0);
    }
    assert TableAt(r, g) by {
      PteAfter(m, free, place, d, i, j, e, g, 0, 0);
    }
  }

  lemma {:induction false} RewirePtes(m: Mem, free: seq<Frame>, place: Places, d: Frame, i: nat, j: nat, e: Entry, f: Frame, p: Place, g: Frame)
    requires Sound(m, free, place) && Rewired(m, free, place, d, i, j, e, f, p) && IsDir(place, g)
    requires TableAt(m, Pde(m, d, i).frame)
    ensures UserPtesOk(SetEntry(m, Pde(m, d, i).frame, j, e), place[f := p], g)
  {
    var r := SetEntry(m, Pde(m, d, i).frame, j, e);
    var q := place[f := p];
    assert FrameOk(m, free, place, g);
    forall i', j' | 0 <= i' < USERPDES && 0 <= j' < NPTENTRIES && Pte(r, g, i', j').Present?
      ensures Pte(r, g, i', j').frame in q && q[Pte(r, g, i', j').frame] == User(g, i', j')
    {
      PteAfter(m, free, place, d, i, j, e, g, i', j');
    }
  }

  lemma {:induction false} RewireAt(m: Mem, free: seq<Frame>, place: Places, d: Frame, i: nat, j: nat, e: Entry, f: Frame, p: Place, g: Frame)
    requires Sound(m, free, place) && Rewired(m, free, place, d, i, j, e, f, p) && g in place
    requires TableAt(m, Pde(m, d, i).frame)
    ensures FrameOk(SetEntry(m, Pde(m, d, i).frame, j, e), free, place[f := p], g)
  {
    TableOf(m, free, place, d, i);
    var r := SetEntry(m, Pde(m, d, i).frame, j, e);
    assert FrameOk(m, free, place, g);
    if g == f {
      PteAfter(m, free, place, d, i, j, e, d, i, j);
    } else {
      match place[g] {
        case Free =>
        case Held =>
        case Dir =>
          RewireDir(m, free, place, d, i, j, e, f, p, g);
          RewirePtes(m, free, place, d, i, j, e, f, p, g);
        case Tab(d', i') => PteAfter(m, free, place, d, i, j, e, d', i', 0);
        case User(d', i', j') => PteAfter(m, free, place, d, i, j, e, d', i', j');
      }
    }
  }

  lemma {:induction false} Rewire(m: Mem, free: seq<Frame>, place: Places, d: Frame, i: nat, j: nat, e: Entry, f: Frame, p: Place)
    requires Sound(m, free, place) && Rewired(m, free, place, d, i, j, e, f, p)
    ensures TableAt(m, Pde(m, d, i).frame)
    ensures Sound(SetEntry(m, Pde(m, d, i).frame, j, e), free, place[f := p])
  {
    TableOf(m, free, place, d, i);
    var r := SetEntry(m, Pde(m, d, i).frame, j, e);
    var q := place[f := p];
    forall g | g in q
      ensures FrameOk(r, free, q, g)
    {
      RewireAt(m, free, place, d, i, j, e, f, p, g);
    }
    assert FreeOk(free, q) by {
      assert FrameOk(m, free, place, f);
    }
  }

  /** Writing an entry of the kernel's half moves no page. */
  lemma {:induction false} MapKernel(m: Mem, free: seq<Frame>, place: Places, d: Frame, i: nat, j: nat, e: Entry)
    requires Sound(m, free, place) && IsDir(place, d)
    requires USERPDES <= i < NPDENTRIES && j < NPTENTRIES && Pde(m, d, i).Present?
    ensures TableAt(m, Pde(m, d, i).frame)
    ensures Sound(SetEntry(m, Pde(m, d, i).frame, j, e), free, place)
  {
    TableOf(m, free, place, d, i);
    var r := SetEntry(m, Pde(m, d, i).frame, j, e);
    forall g | g in place
      ensures FrameOk(r, free, place, g)
    {
      MapKernelAt(m, free, place, d, i, j, e, g);
    }
  }

  lemma {:induction false} MapKernelAt(m: Mem, free: seq<Frame>, place: Places, d: Frame, i: nat, j: nat, e: Entry, g: Frame)
    requires Sound(m, free, place) && IsDir(place, d) && g in place
    requires USERPDES <= i < NPDENTRIES && j < NPTENTRIES && Pde(m, d, i).Present?
    requires TableAt(m, Pde(m, d, i).frame)
    ensures FrameOk(SetEntry(m, Pde(m, d, i).frame, j, e), free, place, g)
  {
    TableOf(m, free, place, d, i);
    var r := SetEntry(m, Pde(m, d, i).frame, j, e);
    assert FrameOk(m, free, place, g);
    match place[g] {
      case Free =>
      case Held =>
      case Dir =>
        forall i' | 0 <= i' < NPDENTRIES
          ensures Pde(r, g, i') == Pde(m, g, i') && TableAt(r, g)
        {
          PteAfter(m, free, place, d, i, j, e, g, i', 0);
        }
        PteAfter(m, free, place, d, i, j, e, g, 0, 0);
        forall i', j' | 0 <= i' < USERPDES && 0 <= j' < NPTENTRIES
          ensures Pte(r, g, i', j') == Pte(m, g, i', j')
        {
          PteAfter(m, free, place, d, i, j, e, g, i', j');
        }
      case Tab(d', i') => PteAfter(m, free, place, d, i, j, e, d', i', 0);
      case User(d', i', j') => PteAfter(m, free, place, d, i, j, e, d', i', j');
    }
  }

  // ---------------------------------------------------------------- whole tables

  /** A new, empty table `t` at entry `i` of `d`. */
  function WithTable(m: Mem, d: Frame, i: nat, t: Frame, flags: nat): (r: Mem)
    requires TableAt(m, d) && i < NPDENTRIES && t in m && t != d
  {
    SetEntry(m[t := Table(Zeros())], d, i, Present(t, flags))
  }

  lemma {:induction false} PteWithTable(m: Mem, free: seq<Frame>, place: Places, d: Frame, i: nat, t: Frame, flags: nat, d': Frame, i': nat, j': nat)
    requires Sound(m, free, place) && IsDir(place, d) && IsDir(place, d') && t in place && place[t] == Held
    requires i < NPDENTRIES && i' < NPDENTRIES && Pde(m, d, i) == Absent
    ensures TableAt(m, d) && t in m && t != d
    ensures var r := WithTable(m, d, i, t, flags);
            && TableAt(r, d')
            && Pde(r, d', i') == (if d' == d && i' == i then Present(t, flags) else Pde(m, d', i'))
            && Pte(r, d', i', j') == Pte(m, d', i', j')
  {
    assert FrameOk(m, free, place, d);
    assert FrameOk(m, free, place, d');
    var r := WithTable(m, d, i, t, flags);
    if Pde(m, d', i').Present? {
      TableOf(m, free, place, d', i');
    }
  }

  lemma {:induction false} NewTableAt(m: Mem, free: seq<Frame>, place: Places, d: Frame, i: nat, t: Frame, flags: nat, g: Frame)
    requires Sound(m, free, place) && IsDir(place, d) && t in place && place[t] == Held && g in place
    requires flags == PTE_W + PTE_U && i < NPDENTRIES && Pde(m, d, i) == Absent
    requires TableAt(m, d) && t in m && t != d
    ensures FrameOk(WithTable(m, d, i, t, flags), free, place[t := Tab(d, i)], g)
  {
    var r := WithTable(m, d, i, t, flags);
    var q := place[t := Tab(d, i)];
    assert FrameOk(m, free, place, g);
    if g == t {
      PteWithTable(m, free, place, d, i, t, flags, d, i, 0);
    } else {
      match place[g] {
        case Free =>
        case Held =>
        case Dir => NewTableDir(m, free, place, d, i, t, flags, g);
        case Tab(d', i') => PteWithTable(m, free, place, d, i, t, flags, d', i', 0);
        case User(d', i', j') => PteWithTable(m, free, place, d, i, t, flags, d', i', j');
      }
    }
  }

  lemma {:induction false} NewTableDir(m: Mem, free: seq<Frame>, place: Places, d: Frame, i: nat, t: Frame, flags: nat, g: Frame)
    requires Sound(m, free, place) && IsDir(place, d) && t in place && place[t] == Held && IsDir(place, g)
    requires flags == PTE_W + PTE_U && i < NPDENTRIES && Pde(m, d, i) == Absent
    requires TableAt(m, d) && t in m && t != d
    ensures var r := WithTable(m, d, i, t, flags);
            var q := place[t := Tab(d, i)];
            DirOk(r, q, g) && UserPtesOk(r, q, g)
  {
    var r := WithTable(m, d, i, t, flags);
    var q := place[t := Tab(d, i)];
    assert FrameOk(m, free, place, g);
    PteWithTable(m, free, place, d, i, t, flags, g, 0, 0);
    forall i' | 0 <= i' < NPDENTRIES && Pde(r, g, i').Present?
      ensures Pde(r, g, i').frame in q && q[Pde(r, g, i').frame] == Tab(g, i') && Pde(r, g, i').flags == PTE_W + PTE_U
    {
      PteWithTable(m, free, place, d, i, t, flags, g, i', 0);
    }
    forall i', j' | 0 <= i' < USERPDES && 0 <= j' < NPTENTRIES
      ensures Pte(r, g, i', j') == Pte(m, g, i', j')
    {
      PteWithTable(m, free, place, d, i, t, flags, g, i', j');
    }
  }

  /** A page in hand becomes a page table. */
  lemma {:induction false} NewTable(m: Mem, free: seq<Frame>, place: Places, d: Frame, i: nat, t: Frame, flags: nat)
    requires Sound(m, free, place) && IsDir(place, d) && t in place && place[t] == Held
    requires flags == PTE_W + PTE_U && i < NPDENTRIES && Pde(m, d, i) == Absent
    ensures TableAt(m, d) && t in m && t != d
    ensures Sound(WithTable(m, d, i, t, flags), free, place[t := Tab(d, i)])
  {
    PteWithTable(m, free, place, d, i, t, flags, d, i, 0);
    var r := WithTable(m, d, i, t, flags);
    var q := place[t := Tab(d, i)];
    forall g | g in q
      ensures FrameOk(r, free, q, g)
    {
      NewTableAt(m, free, place, d, i, t, flags, g);
    }
  }

  /** Entry `i` of `d` is cleared and its table is plain memory again. */
  function WithoutTable(m: Mem, d: Frame, i: nat, bytes: seq<Byte>): (r: Mem)
    requires TableAt(m, d) && i < NPDENTRIES && Pde(m, d, i).Present?
  {
    SetEntry(m, d, i, Absent)[Pde(m, d, i).frame := Data(bytes)]
  }

  lemma {:induction false} PteWithoutTable(m: Mem, free: seq<Frame>, place: Places, d: Frame, i: nat, bytes: seq<Byte>, d': Frame, i': nat, j': nat)
    requires Sound(m, free, place) && IsDir(place, d) && IsDir(place, d')
    requires i < NPDENTRIES && i' < NPDENTRIES && Pde(m, d, i).Present?
    ensures TableAt(m, d)
    ensures var r := WithoutTable(m, d, i, bytes);
            && TableAt(r, d')
            && Pde(r, d', i') == (if d' == d && i' == i then Absent else Pde(m, d', i'))
            && Pte(r, d', i', j') == (if d' == d && i' == i then Absent else Pte(m, d', i', j'))
  {
    assert FrameOk(m, free, place, d);
    assert FrameOk(m, free, place, d');
    TableOf(m, free, place, d, i);
    var r := WithoutTable(m, d, i, bytes);
    if Pde(m, d', i').Present? {
      TableOf(m, free, place, d', i');
    }
  }

  lemma {:induction false} DropTableAt(m: Mem, free: seq<Frame>, place: Places, d: Frame, i: nat, bytes: seq<Byte>, g: Frame)
    requires Sound(m, free, place) && IsDir(place, d) && g in place
    requires i < NPDENTRIES && Pde(m, d, i).Present? && TableAt(m, d)
    requires i < USERPDES ==> forall j :: 0 <= j < NPTENTRIES ==> Pte(m, d, i, j) == Absent
    ensures FrameOk(WithoutTable(m, d, i, bytes), free, place[Pde(m, d, i).frame := Held], g)
  {
    var t := Pde(m, d, i).frame;
    var r := WithoutTable(m, d, i, bytes);
    TableOf(m, free, place, d, i);
    assert FrameOk(m, free, place, g);
    if g != t {
      match place[g] {
        case Free =>
        case Held =>
        case Dir => DropTableDir(m, free, place, d, i, bytes, g);
        case Tab(d', i') => PteWithoutTable(m, free, place, d, i, bytes, d', i', 0);
        case User(d', i', j') => PteWithoutTable(m, free, place, d, i, bytes, d', i', j');
      }
    }
  }

  lemma {:induction false} DropTableDir(m: Mem, free: seq<Frame>, place: Places, d: Frame, i: nat, bytes: seq<Byte>, g: Frame)
    requires Sound(m, free, place) && IsDir(place, d) && IsDir(place, g)
    requires i < NPDENTRIES && Pde(m, d, i).Present? && TableAt(m, d)
    ensures var r := WithoutTable(m, d, i, bytes);
            var q := place[Pde(m, d, i).frame := Held];
            DirOk(r, q, g) && UserPtesOk(r, q, g)
  {
    var r := WithoutTable(m, d, i, bytes);
    var q := place[Pde(m, d, i).frame := Held];
    TableOf(m, free, place, d, i);
    assert FrameOk(m, free, place, g);
    PteWithoutTable(m, free, place, d, i, bytes, g, 0, 0);
    forall i' | 0 <= i' < NPDENTRIES && Pde(r, g, i').Present?
      ensures Pde(r, g, i').frame in q && q[Pde(r, g, i').frame] == Tab(g, i') && Pde(r, g, i').flags == PTE_W + PTE_U
    {
      PteWithoutTable(m, free, place, d, i, bytes, g, i', 0);
    }
    forall i', j' | 0 <= i' < USERPDES && 0 <= j' < NPTENTRIES && Pte(r, g, i', j').Present?
      ensures Pte(r, g, i', j').frame in q && q[Pte(r, g, i', j').frame] == User(g, i', j')
    {
      PteWithoutTable(m, free, place, d, i, bytes, g, i', j');
    }
  }

  /** A table that maps no user page goes back to the kernel's hands. */
  lemma {:induction false} DropTable(m: Mem, free: seq<Frame>, place: Places, d: Frame, i: nat, bytes: seq<Byte>)
    requires Sound(m, free, place) && IsDir(place, d)
    requires i < NPDENTRIES && Pde(m, d, i).Present?
    requires i < USERPDES ==> forall j :: 0 <= j < NPTENTRIES ==> Pte(m, d, i, j) == Absent
    ensures TableAt(m, d)
    ensures Sound(WithoutTable(m, d, i, bytes), free, place[Pde(m, d, i).frame := Held])
  {
    PteWithoutTable(m, free, place, d, i, bytes, d, i, 0);
    TableOf(m, free, place, d, i);
    var r := WithoutTable(m, d, i, bytes);
    var q := place[Pde(m, d, i).frame := Held];
    forall g | g in q
      ensures FrameOk(r, free, q, g)
    {
      DropTableAt(m, free, place, d, i, bytes, g);
    }
  }
}
