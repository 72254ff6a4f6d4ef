/** Any sequence of making, growing, copying, using and freeing address spaces: every process sees a private
    memory, as if there were no others. */
module VmLife {
  import opened Options
  import opened Blocks
  import opened Paging
  import opened VmSteps
  import opened VmRanges
  import opened Vm
  import opened VmAccess

  /** A process's memory on its own: its size, and the contents of its pages. */
  datatype Private = Private(sz: nat, pages: map<nat, seq<Byte>>)

  /** What can happen: a new empty space, growproc(), the copying in fork(), the freeing in wait(), and a process
      reading or writing a page. */
  datatype Op = Make | Grow(k: nat, n: int) | Fork(k: nat) | Exit(k: nat) | Load(k: nat, v: nat) | Store(k: nat, v: nat, bytes: seq<Byte>)

  datatype Reply = Fine | Failed | Panics | Fault | Value(bytes: seq<Byte>)

  /** All pages below the size are there. */
  ghost predicate Whole(p: Private) {
    forall v: nat :: v < Up(p.sz) ==> v in p.pages
  }

  /** growproc(n), by itself: nothing above KERNBASE, no size below zero, and when the size would be zero the pages
      go, the size stays and the call reports failure. */
  ghost function Growproc(p: Private, n: int, short: bool): (r: (Reply, Private)) {
    var sz := p.sz + n;
    if n > 0 then
      if sz >= KERNBASE || short then (Failed, p)
      else (Fine, Private(sz, p.pages + NewPages(Up(p.sz), Up(sz))))
    else if n == 0 then (Fine, p)
    else if sz < 0 then (if p.sz == 0 then Failed else Fine, p)
    else if sz == 0 then (Failed, Private(p.sz, Except(p.pages, 0, Up(p.sz))))
    else (Fine, Private(sz, Except(p.pages, Up(sz), Up(p.sz))))
  }

  /** What an operation answers and does, process by process; `short` says that memory did not suffice. */
  ghost function Answer(ps: seq<Private>, op: Op, short: bool): (r: (Reply, seq<Private>)) {
    if op.Make? then (if short then (Failed, ps) else (Fine, ps + [Private(0, map[])]))
    else if op.k >= |ps| then (Failed, ps)
    else
      var p := ps[op.k];
      match op
      case Grow(k, n) => var (r, q) := Growproc(p, n, short); (r, ps[k := q])
      case Fork(k) => if short then (Failed, ps) else if Whole(p) then (Fine, ps + [p]) else (Panics, ps)
      case Exit(k) => (Fine, ps[..k] + ps[k + 1..])
      case Load(k, v) => (if v in p.pages then Value(p.pages[v]) else Fault, ps)
      case Store(k, v, bytes) =>
        if v in p.pages then (Fine, ps[k := Private(p.sz, p.pages[v := bytes])]) else (Fault, ps)
  }

  // ---------------------------------------------------------------- the machine

  /** What struct proc has of it. */
  datatype Space = Space(pgdir: Frame, sz: nat)

  ghost predicate SpaceShows(s: State, x: Space, p: Private, data: nat) {
    && Shows(s, x.pgdir, p.pages, data) && x.sz == p.sz < KERNBASE
    && forall v :: v in p.pages ==> v < Up(p.sz)
  }

  ghost predicate AllShow(s: State, xs: seq<Space>, ps: seq<Private>, data: nat) {
    && Ok(s) && |xs| == |ps|
    && (forall k :: 0 <= k < |xs| ==> SpaceShows(s, xs[k], ps[k], data))
    && (forall k, l :: 0 <= k < l < |xs| ==> xs[k].pgdir != xs[l].pgdir)
  }

  /** There is not enough memory for the operation. */
  ghost predicate Short(s: State, xs: seq<Space>, op: Op) {
    if op.Make? then |s.free| < KPAGES
    else if op.k >= |xs| then false
    else
      var x := xs[op.k];
      match op
      case Grow(_, n) => n > 0 && x.sz + n < KERNBASE && !Affordable(s, x.pgdir, Up(x.sz), Up(x.sz + n))
      case Fork(_) => |s.free| < CopyCost(FirstAbsent(s.mem, x.pgdir, 0, Up(x.sz)))
      case _ => false
  }

  // ---------------------------------------------------------------- steps

  lemma {:induction false} OneOf(s: State, xs: seq<Space>, ps: seq<Private>, data: nat, k: nat)
    requires AllShow(s, xs, ps, data) && k < |xs|
    ensures |xs| == |ps| && SpaceShows(s, xs[k], ps[k], data) && Shows(s, xs[k].pgdir, ps[k].pages, data) && Has(s, xs[k].pgdir)
    ensures Up(xs[k].sz) <= KB
  {
    UpIs(xs[k].sz, 0);
    hide Up, Has;
  }

  /** Work on the space of process `k` that leaves everything else untouched. */
  lemma {:induction false} StepAt(s: State, r: State, xs: seq<Space>, ps: seq<Private>, data: nat, k: nat, x: Space, p: Private)
    requires AllShow(s, xs, ps, data) && k < |xs| && x.pgdir == xs[k].pgdir && SpaceShows(r, x, p, data)
    requires Ok(r) && Untouched(s, r, x.pgdir, {})
    ensures AllShow(r, xs[k := x], ps[k := p], data)
  {
    hide Ok, Untouched, Shows;
    var ys, qs := xs[k := x], ps[k := p];
    forall l | 0 <= l < |ys|
      ensures SpaceShows(r, ys[l], qs[l], data)
    {
      if l != k {
        assert SpaceShows(s, xs[l], ps[l], data);
        ShowsKept(s, r, x.pgdir, {}, xs[l].pgdir, ps[l].pages, data);
      }
    }
  }

  /** A new space beside the others, on a directory page that was free. */
  lemma {:induction false} StepNew(s: State, r: State, xs: seq<Space>, ps: seq<Private>, data: nat, x: Space, p: Private)
    requires AllShow(s, xs, ps, data) && SpaceShows(r, x, p, data) && Ok(r) && Untouched(s, r, x.pgdir, {})
    requires x.pgdir in s.place && s.place[x.pgdir] == Free
    ensures AllShow(r, xs + [x], ps + [p], data)
  {
    hide Ok, Untouched;
    forall l | 0 <= l < |xs|
      ensures xs[l].pgdir != x.pgdir && SpaceShows(r, xs[l], ps[l], data)
    {
      assert SpaceShows(s, xs[l], ps[l], data);
      ShowsKept(s, r, x.pgdir, {}, xs[l].pgdir, ps[l].pages, data);
    }
  }

  lemma {:induction false} StepGone(s: State, r: State, xs: seq<Space>, ps: seq<Private>, data: nat, k: nat)
    requires AllShow(s, xs, ps, data) && k < |xs| && Ok(r) && Untouched(s, r, xs[k].pgdir, {})
    ensures AllShow(r, xs[..k] + xs[k + 1..], ps[..k] + ps[k + 1..], data)
  {
    hide Ok, Untouched, Shows;
    var ys, qs := xs[..k] + xs[k + 1..], ps[..k] + ps[k + 1..];
    forall l | 0 <= l < |ys|
      ensures SpaceShows(r, ys[l], qs[l], data)
    {
      var j := if l < k then l else l + 1;
      assert SpaceShows(s, xs[j], ps[j], data) && xs[j].pgdir != xs[k].pgdir;
      ShowsKept(s, r, xs[k].pgdir, {}, xs[j].pgdir, ps[j].pages, data);
    }
  }

  lemma {:induction false} StepBack(s: State, r: State, x: set<Frame>, xs: seq<Space>, ps: seq<Private>, data: nat)
    requires AllShow(s, xs, ps, data) && Returned(s, r, x)
    ensures AllShow(r, xs, ps, data)
  {
    hide Ok, Untouched, Shows, Returned;
    ReturnedUntouched(s, r, x, 0);
    forall l | 0 <= l < |xs|
      ensures SpaceShows(r, xs[l], ps[l], data)
    {
      assert SpaceShows(s, xs[l], ps[l], data);
      ReturnedUntouched(s, r, x, xs[l].pgdir + 1);
      ShowsKept(s, r, xs[l].pgdir + 1, x, xs[l].pgdir, ps[l].pages, data);
    }
  }

  /** A page is missing below the size exactly if the process is not whole. */
  lemma {:induction false} MissingPage(s: State, x: Space, p: Private, data: nat)
    requires SpaceShows(s, x, p, data)
    ensures Whole(p) <==> FirstAbsent(s.mem, x.pgdir, 0, Up(x.sz)) == Up(x.sz)
  {
    UpIs(x.sz, 0);
    var n, f := Up(x.sz), FirstAbsent(s.mem, x.pgdir, 0, Up(x.sz));
    hide Has, Trans, Up, FirstAbsent;
    forall v: nat | v < KB
      ensures v in p.pages <==> Trans(s.mem, x.pgdir, v).Present?
    {
      assert PageShows(s, Trans(s.mem, x.pgdir, v), v, p.pages);
    }
    if f < n {
      assert f !in p.pages;
    }
  }

  /** Pages grown beyond the size. */
  lemma {:induction false} GrowStep(s: State, r: State, x: Space, p: Private, data: nat, newsz: nat)
    requires SpaceShows(s, x, p, data) && x.sz < newsz < KERNBASE && Allocated(s, r, x.pgdir, Up(x.sz), Up(newsz))
    ensures Ok(r) && Untouched(s, r, x.pgdir, {})
    ensures if Affordable(s, x.pgdir, Up(x.sz), Up(newsz))
            then SpaceShows(r, Space(x.pgdir, newsz), Private(newsz, p.pages + NewPages(Up(x.sz), Up(newsz))), data)
            else SpaceShows(r, x, p, data)
  {
    hide Has, Trans, Shows, Affordable, Filled, Up, Restored, Frames, VmSteps.Grown;
    UpOrder(x.sz, newsz);
    var d, lo, hi := x.pgdir, Up(x.sz), Up(newsz);
    if Affordable(s, d, lo, hi) {
      ShowsGrown(s, r, d, p.pages, data, lo, hi);
      GrownTrans(s, r, d, lo, hi, hi - lo);
      OkOf(r, d);
    } else {
      ShowsRestored(s, r, d, p.pages, data);
      RestoredUntouched(s, r, d);
    }
  }

  lemma {:induction false} RestoredUntouched(s: State, r: State, d: Frame)
    requires Restored(s, r, d)
    ensures Ok(r) && Untouched(s, r, d, {})
  {
    hide Untouched, UsersKept;
  }

  lemma {:induction false} ShrinkStep(s: State, r: State, x: Space, p: Private, data: nat, newsz: nat)
    requires SpaceShows(s, x, p, data) && newsz < x.sz && Dropped(s, r, x.pgdir, Up(newsz), Up(x.sz))
    ensures Ok(r) && Untouched(s, r, x.pgdir, {})
    ensures var q := Except(p.pages, Up(newsz), Up(x.sz));
            && SpaceShows(r, Space(x.pgdir, newsz), Private(newsz, q), data) && SpaceShows(r, x, Private(p.sz, q), data)
  {
    hide Has, Trans, Shows, Up, Dropped;
    UpIs(x.sz, 0);
    ShowsDropped(s, r, x.pgdir, p.pages, data, Up(newsz), Up(x.sz));
    DroppedUntouched(s, r, x.pgdir, Up(newsz), Up(x.sz));
    DroppedOk(s, r, x.pgdir, Up(newsz), Up(x.sz));
  }

  lemma {:induction false} ForkStep(s: State, r: State, x: Space, p: Private, c: Frame, data: nat)
    requires SpaceShows(s, x, p, data) && Whole(p) && Copied(s, r, x.pgdir, c, Up(x.sz), data) && KLINK < data < KTOP
    ensures SpaceShows(r, Space(c, x.sz), p, data) && c in s.place && s.place[c] == Free && Ok(r) && Untouched(s, r, c, {})
  {
    hide Has, Trans, Shows, Up, Filled, Untouched;
    UpIs(x.sz, 0);
    ShowsCopied(s, r, x.pgdir, c, Up(x.sz), p.pages, data);
    assert Has(r, c);
    OkOf(r, c);
  }

  lemma {:induction false} VacantAbove(s: State, x: Space, p: Private, data: nat, newsz: nat)
    requires SpaceShows(s, x, p, data) && newsz < KERNBASE
    ensures x.sz <= newsz ==> Vacant(s, x.pgdir, Up(x.sz), Up(newsz))
  {
    UpIs(newsz, 0);
    hide Has, Trans, Up;
    forall v | Up(x.sz) <= v < Up(newsz)
      ensures Trans(s.mem, x.pgdir, v) == Absent
    {
      assert PageShows(s, Trans(s.mem, x.pgdir, v), v, p.pages);
    }
  }

  // ---------------------------------------------------------------- code

  predicate Fits(op: Op) {
    match op
    case Grow(_, n) => -0x8000_0000 <= n < 0x8000_0000
    case Load(_, v) => v < PAGES
    case Store(_, v, _) => v < PAGES
    case _ => true
  }

  class Machine {
    const m: Memory
    var spaces: seq<Space>
    ghost var ps: seq<Private>

    ghost predicate Valid()
      reads this, m
    {
      KLINK < m.data < KTOP && AllShow(m.St(), spaces, ps, m.data)
    }

    /** All pages from `lo` below `hi` are free, and there are no processes. */
    constructor (lo: nat, hi: nat, data: nat)
      requires KLINK < data < KTOP
      ensures Valid() && ps == [] && fresh(m) && m.data == data
      ensures |m.freelist| == if lo <= hi then hi - lo else 0
    {
      m := new Memory(lo, hi, data);
      spaces, ps := [], [];
    }

    method DoMake() returns (r: Reply)
      requires Valid()
      modifies this, m
      ensures (r, ps) == Answer(old(ps), Make, old(Short(m.St(), spaces, Make))) && Valid()
      ensures r == Fine ==> |m.freelist| == |old(m.freelist)| - KPAGES
    {
      hide Ok, Shows, SpaceMade, Returned;
      ghost var s := m.St();
      var d := m.Setupkvm();
      if d.None? {
        StepBack(s, m.St(), {}, spaces, ps, m.data);
        return Failed;
      }
      MadeStep(s, m.St(), d.value, m.data);
      StepNew(s, m.St(), spaces, ps, m.data, Space(d.value, 0), Private(0, map[]));
      spaces, ps := spaces + [Space(d.value, 0)], ps + [Private(0, map[])];
      r := Fine;
    }

    /** growproc(), with the size in 32-bit arithmetic. */
    method DoGrow(k: nat, n: int) returns (r: Reply)
      requires Valid() && k < |spaces| && -0x8000_0000 <= n < 0x8000_0000
      modifies this, m
      ensures k < |old(ps)|
      ensures r == Growproc(old(ps)[k], n, old(Short(m.St(), spaces, Grow(k, n)))).0
      ensures ps == old(ps)[k := Growproc(old(ps)[k], n, old(Short(m.St(), spaces, Grow(k, n)))).1] && Valid()
    {
      hide Ok, Shows, AllShow, Up, Dropped, Allocated, Affordable, Vacant, Untouched, Growproc;
      ghost var s := m.St();
      OneOf(s, spaces, ps, m.data, k);
      var x := spaces[k];
      ghost var p, q := ps[k], Growproc(ps[k], n, Short(m.St(), spaces, Grow(k, n))).1;
      GrowCases(s, spaces, p, k, n);
      var sz, newsz := x.sz, (x.sz + n) % 0x1_0000_0000;
      if n > 0 {
        if newsz < KERNBASE {
          VacantAbove(s, x, p, m.data, newsz);
        }
        sz := m.Allocuvm(x.pgdir, sz, newsz);
        GrewStep(s, m.St(), spaces, ps, m.data, k, n, sz);
        if sz == 0 {
          ps := ps[k := q];
          return Failed;
        }
      } else if n < 0 {
        sz := m.Deallocuvm(x.pgdir, sz, newsz);
        ShrankStep(s, m.St(), spaces, ps, m.data, k, n, sz);
        if sz == 0 {
          ps := ps[k := q];
          return Failed;
        }
      } else {
        assert spaces[k := x] == spaces && ps[k := p] == ps;
      }
      spaces, ps := spaces[k := Space(x.pgdir, sz)], ps[k := q];
      r := Fine;
    }

    /** The part of fork() that copies the address space. */
    method DoFork(k: nat) returns (r: Reply)
      requires Valid() && k < |spaces|
      modifies this, m
      ensures (r, ps) == Answer(old(ps), Fork(k), old(Short(m.St(), spaces, Fork(k)))) && (r != Panics ==> Valid())
    {
      hide Ok, Shows, Up, Copied, Returned, Untouched, FirstAbsent, Whole, LeavesPage, CopyCost;
      ghost var s := m.St();
      OneOf(s, spaces, ps, m.data, k);
      var x := spaces[k];
      ghost var p := ps[k];
      MissingPage(s, x, p, m.data);
      AbsentBelow(s.mem, x.pgdir, Up(x.sz));
      var c, left := m.Copyuvm(x.pgdir, x.sz);
      match c {
        case CopyFail =>
          StepBack(s, m.St(), left, spaces, ps, m.data);
          r := Failed;
        case CopyPanic =>
          r := Panics;
        case CopyOk(d) =>
          ForkStep(s, m.St(), x, p, d, m.data);
          StepNew(s, m.St(), spaces, ps, m.data, Space(d, x.sz), p);
          spaces, ps := spaces + [Space(d, x.sz)], ps + [p];
          r := Fine;
      }
    }

    /** freevm() of a process that has exited. */
    method DoExit(k: nat) returns (r: Reply)
      requires Valid() && k < |spaces|
      modifies this, m
      ensures (r, ps) == Answer(old(ps), Exit(k), false) && Valid()
    {
      hide Ok, Shows, Erased, Untouched;
      ghost var s := m.St();
      OneOf(s, spaces, ps, m.data, k);
      m.Freevm(spaces[k].pgdir);
      ErasedUntouched(s, m.St(), spaces[k].pgdir);
      StepGone(s, m.St(), spaces, ps, m.data, k);
      spaces, ps := spaces[..k] + spaces[k + 1..], ps[..k] + ps[k + 1..];
      r := Fine;
    }

    /** A process reads page `v` in user mode. */
    method DoLoad(k: nat, v: nat) returns (r: Reply)
      requires Valid() && k < |spaces| && v < PAGES
      ensures (r, ps) == Answer(ps, Load(k, v), false)
    {
      hide Ok, Shows, AccessAt;
      OneOf(m.St(), spaces, ps, m.data, k);
      UserAccess(m.St(), spaces[k].pgdir, ps[k].pages, m.data, v);
      var a := AccessAt(m.mem, spaces[k].pgdir, v);
      r := if a.Access? && a.user then Value(m.mem[a.frame].bytes) else Fault;
    }

    /** A process overwrites page `v` in user mode. */
    method DoStore(k: nat, v: nat, bytes: seq<Byte>) returns (r: Reply)
      requires Valid() && k < |spaces| && v < PAGES
      modifies this, m
      ensures (r, ps) == Answer(old(ps), Store(k, v, bytes), false) && Valid()
    {
      hide Ok, Shows, AccessAt, Untouched;
      ghost var s := m.St();
      OneOf(s, spaces, ps, m.data, k);
      var x := spaces[k];
      ghost var p := ps[k];
      UserAccess(s, x.pgdir, p.pages, m.data, v);
      var a := AccessAt(m.mem, x.pgdir, v);
      if !a.Access? || !a.user || !a.write {
        return Fault;
      }
      ShowsStored(s, x.pgdir, p.pages, m.data, v, bytes);
      m.mem := m.mem[a.frame := Data(bytes)];
      assert m.St() == Stored(s, a.frame, bytes);
      ghost var q := Private(p.sz, p.pages[v := bytes]);
      assert Ok(m.St()) by { OkShown(m.St(), x.pgdir, q.pages, m.data); }
      StepAt(s, m.St(), spaces, ps, m.data, k, x, q);
      assert spaces[k := x] == spaces;
      ps := ps[k := q];
      r := Fine;
    }

    /** Whatever happens, each process sees its own memory as if it were alone. */
    method Do(op: Op) returns (r: Reply)
      requires Valid() && Fits(op)
      modifies this, m
      ensures (r, ps) == Answer(old(ps), op, old(Short(m.St(), spaces, op)))
      ensures r != Panics ==> Valid()
      ensures op == Make && r == Fine ==> |m.freelist| == |old(m.freelist)| - KPAGES
    {
      hide AllShow, Growproc, Whole, Affordable;
      assert |spaces| == |ps| by { SameLength(m.St(), spaces, ps, m.data); }
      if op.Make? {
        r := DoMake();
        return;
      } else if op.k >= |spaces| {
        return Failed;
      }
      match op {
        case Grow(k, n) => r := DoGrow(k, n);
        case Fork(k) => r := DoFork(k);
        case Exit(k) => r := DoExit(k);
        case Load(k, v) => r := DoLoad(k, v);
        case Store(k, v, bytes) => r := DoStore(k, v, bytes);
      }
    }
  }

  lemma {:induction false} SameLength(s: State, xs: seq<Space>, ps: seq<Private>, data: nat)
    requires AllShow(s, xs, ps, data)
    ensures |xs| == |ps|
  {
  }

  lemma {:induction false} OkShown(s: State, d: Frame, p: map<nat, seq<Byte>>, data: nat)
    requires Shows(s, d, p, data)
    ensures Ok(s)
  {
  }

  lemma {:induction false} AbsentBelow(m: Mem, d: Frame, n: nat)
    ensures FirstAbsent(m, d, 0, n) <= n
  {
  }

  /** growproc() on sizes. */
  lemma {:induction false} GrowCases(s: State, xs: seq<Space>, p: Private, k: nat, n: int)
    requires k < |xs| && xs[k].sz == p.sz < KERNBASE && -0x8000_0000 <= n < 0x8000_0000
    ensures var sz, newsz := p.sz + n, (p.sz + n) % 0x1_0000_0000;
            var (r, q) := Growproc(p, n, Short(s, xs, Grow(k, n)));
            && (n == 0 ==> r == Fine && q == p)
            && (n > 0 ==> newsz == sz && p.sz < newsz)
            && (n < 0 ==> newsz == if sz < 0 then sz + 0x1_0000_0000 else sz)
            && (sz < 0 ==> newsz >= KERNBASE)
  {
    hide Affordable, Up, NewPages, Except;
  }

  /** allocuvm() in growproc(): its result is zero exactly when it failed. */
  lemma {:induction false} GrewStep(s: State, t: State, xs: seq<Space>, ps: seq<Private>, data: nat, k: nat, n: int, sz: nat)
    requires AllShow(s, xs, ps, data) && k < |xs| == |ps| && 0 < n
    requires var x, newsz := xs[k], xs[k].sz + n;
             if newsz >= KERNBASE then sz == 0 && t == s
             else sz == (if Affordable(s, x.pgdir, Up(x.sz), Up(newsz)) then newsz else 0) && Allocated(s, t, x.pgdir, Up(x.sz), Up(newsz))
    ensures var x, (r, q) := xs[k], Growproc(ps[k], n, Short(s, xs, Grow(k, n)));
            && r == (if sz == 0 then Failed else Fine)
            && AllShow(t, if sz == 0 then xs else xs[k := Space(x.pgdir, sz)], ps[k := q], data)
  {
    hide Affordable, Up, NewPages, Allocated, Shows, Ok, Untouched, AllShow;
    OneOf(s, xs, ps, data, k);
    var x, newsz, q := xs[k], xs[k].sz + n, Growproc(ps[k], n, Short(s, xs, Grow(k, n))).1;
    assert xs[k := x] == xs && ps[k := ps[k]] == ps;
    if newsz < KERNBASE {
      GrowStep(s, t, x, ps[k], data, newsz);
      StepAt(s, t, xs, ps, data, k, Space(x.pgdir, q.sz), q);
    }
  }

  lemma {:induction false} ShrankStep(s: State, t: State, xs: seq<Space>, ps: seq<Private>, data: nat, k: nat, n: int, sz: nat)
    requires AllShow(s, xs, ps, data) && k < |xs| == |ps| && -0x8000_0000 <= n < 0
    requires var x, newsz := xs[k], if xs[k].sz + n < 0 then xs[k].sz + n + 0x1_0000_0000 else xs[k].sz + n;
             if newsz >= x.sz then sz == x.sz && t == s
             else sz == newsz && Dropped(s, t, x.pgdir, Up(newsz), Up(x.sz))
    ensures var x, (r, q) := xs[k], Growproc(ps[k], n, Short(s, xs, Grow(k, n)));
            && r == (if sz == 0 then Failed else Fine)
            && AllShow(t, if sz == 0 then xs else xs[k := Space(x.pgdir, sz)], ps[k := q], data)
  {
    hide Affordable, Except, Dropped, Shows, Ok, Untouched, AllShow;
    OneOf(s, xs, ps, data, k);
    var x, newsz, q := xs[k], xs[k].sz + n, Growproc(ps[k], n, Short(s, xs, Grow(k, n))).1;
    assert xs[k := x] == xs && ps[k := ps[k]] == ps;
    if newsz >= 0 {
      assert Up(0) == 0;
      hide Up;
      ShrinkStep(s, t, x, ps[k], data, newsz);
      StepAt(s, t, xs, ps, data, k, Space(x.pgdir, q.sz), q);
    }
  }

  lemma {:induction false} MadeStep(s: State, r: State, d: Frame, data: nat)
    requires SpaceMade(s, r, d, data) && KLINK < data < KTOP
    ensures SpaceShows(r, Space(d, 0), Private(0, map[]), data) && Ok(r) && Untouched(s, r, d, {})
    ensures d in s.place && s.place[d] == Free && |r.free| == |s.free| - KPAGES
  {
    hide Trans;
    ShowsMade(s, r, d, data);
  }

  // ---------------------------------------------------------------- what processes can rely on

  /** A growproc() that reports failure has changed nothing, if and only if it was not asked to give up exactly all
      the memory there was. */
  lemma {:induction false} FailureChangesNothing(p: Private, n: int, short: bool)
    requires Growproc(p, n, short).0 == Failed && (forall v :: v in p.pages ==> v < Up(p.sz))
    ensures Growproc(p, n, short).1 == p <==> !(n < 0 && p.sz + n == 0 && p.pages != map[])
  {
    hide Up;
    if n < 0 && p.sz + n == 0 {
      var q := Except(p.pages, 0, Up(p.sz));
      assert q == map[];
    }
  }

  lemma {:induction false} OnePageCost(s: State, xs: seq<Space>, n: int)
    requires |xs| == 1 && xs[0].sz == 0 && n == PGSIZE && |s.free| >= 2
    ensures Up(0) == 0 && Up(n) == 1 && !Short(s, xs, Grow(0, n))
  {
    assert Missing(s.mem, xs[0].pgdir, 0, 0) == 0;
    hide Pde;
    assert Cost(s, xs[0].pgdir, 0, 1) <= 2;
  }

  /** It does happen: a process of one page gives it up, is told that it could not, and has no memory left. */
  method GivesUpAll() returns (w: Machine, rs: seq<Reply>)
    ensures rs == [Fine, Fine, Failed, Fault] && w.ps == [Private(PGSIZE, map[])]
  {
    hide AllShow, Affordable, Zero;
    w := new Machine(1, 200, KLINK + 1);
    var a := w.Do(Make);
    assert w.ps == [Private(0, map[])];
    assert |w.spaces| == 1 && w.spaces[0].sz == 0 by { OnlyOne(w.m.St(), w.spaces, w.ps, w.m.data); }
    OnePageCost(w.m.St(), w.spaces, PGSIZE);
    var b := w.Do(Grow(0, PGSIZE));
    ghost var pages := map[] + NewPages(0, 1);
    assert w.ps == [Private(PGSIZE, pages)];
    var c := w.Do(Grow(0, -PGSIZE));
    assert Except(pages, 0, 1) == map[];
    assert w.ps == [Private(PGSIZE, map[])];
    var e := w.Do(Load(0, 0));
    rs := [a, b, c, e];
  }

  lemma {:induction false} OnlyOne(s: State, xs: seq<Space>, ps: seq<Private>, data: nat)
    requires AllShow(s, xs, ps, data) && |ps| == 1
    ensures |xs| == 1 && xs[0].sz == ps[0].sz
  {
    assert SpaceShows(s, xs[0], ps[0], data);
  }

  /** An operation keeps all processes whole exactly unless it is such a growproc(); and while they are, the
      copying in fork() does not meet its panic. */
  lemma {:induction false} WholeStep(ps: seq<Private>, op: Op, short: bool)
    requires EachWhole(ps)
    ensures var (r, qs) := Answer(ps, op, short);
            && r != Panics
            && (EachWhole(qs) <==>
                  !(op.Grow? && op.k < |ps| && op.n < 0 && ps[op.k].sz + op.n == 0))
  {
    var (r, qs) := Answer(ps, op, short);
    if op.Grow? && op.k < |ps| {
      var p := ps[op.k];
      assert Whole(p);
      WholeGrow(p, op.n, short);
      hide Growproc, Whole;
      assert qs == ps[op.k := Growproc(p, op.n, short).1];
      assert qs[op.k] == Growproc(p, op.n, short).1;
    } else {
      hide Whole;
      if op.Exit? && op.k < |ps| {
        assert forall k :: 0 <= k < |qs| ==> qs[k] == if k < op.k then ps[k] else ps[k + 1];
      }
      if op.Store? && op.k < |ps| && op.v in ps[op.k].pages {
        WholeStore(ps[op.k], op.v, op.bytes);
      }
      if op.Make? && !short {
        assert Whole(Private(0, map[])) by { WholeNone(); }
      }
    }
  }

  lemma {:induction false} WholeNone()
    ensures Whole(Private(0, map[]))
  {
  }

  lemma {:induction false} WholeStore(p: Private, v: nat, bytes: seq<Byte>)
    requires Whole(p) && v in p.pages
    ensures Whole(Private(p.sz, p.pages[v := bytes]))
  {
  }

  lemma {:induction false} WholeGrow(p: Private, n: int, short: bool)
    requires Whole(p)
    ensures Whole(Growproc(p, n, short).1) <==> !(n < 0 && p.sz + n == 0)
  {
    var sz := p.sz + n;
    if 0 < sz {
      UpIs(p.sz, 0);
      UpIs(sz, 0);
      if n > 0 {
        assert Up(p.sz) <= Up(sz);
      } else {
        assert Up(sz) <= Up(p.sz);
      }
    }
    if n < 0 && sz == 0 {
      assert 0 < Up(p.sz);
    }
    hide Up, Frames;
    if n < 0 && sz == 0 {
      assert 0 !in Growproc(p, n, short).1.pages;
    }
  }

  // ---------------------------------------------------------------- one operation after another

  /** The answers to a sequence of operations, and the memories they leave. */
  ghost function AnswerAll(ps: seq<Private>, ops: seq<Op>, shorts: seq<bool>): (r: (seq<Reply>, seq<Private>))
    requires |shorts| == |ops|
  {
    if ops == [] then ([], ps)
    else
      var n := |ops| - 1;
      var (rs, qs) := AnswerAll(ps, ops[..n], shorts[..n]);
      var (r, q) := Answer(qs, ops[n], shorts[n]);
      (rs + [r], q)
  }

  /** Some growproc() of the sequence gives up exactly all the memory its process has. */
  ghost predicate GivesUp(ps: seq<Private>, ops: seq<Op>, shorts: seq<bool>)
    requires |shorts| == |ops|
  {
    ops != [] &&
    var n := |ops| - 1;
    GivesUp(ps, ops[..n], shorts[..n])
    || var qs, op := AnswerAll(ps, ops[..n], shorts[..n]).1, ops[n];
       op.Grow? && op.k < |qs| && op.n < 0 && qs[op.k].sz + op.n == 0
  }

  /** As long as none does, every process has all the memory of its size, and the copying in fork() never panics. */
  lemma {:induction false} AllWhole(ops: seq<Op>, shorts: seq<bool>)
    requires |shorts| == |ops| && !GivesUp([], ops, shorts)
    ensures NonePanics(AnswerAll([], ops, shorts).0) && EachWhole(AnswerAll([], ops, shorts).1)
  {
    hide Answer, Whole;
    if ops != [] {
      var n := |ops| - 1;
      AllWhole(ops[..n], shorts[..n]);
      var qs := AnswerAll([], ops[..n], shorts[..n]).1;
      assert EachWhole(qs);
      WholeStep(qs, ops[n], shorts[n]);
    }
  }

  ghost predicate NonePanics(rs: seq<Reply>) {
    forall k :: 0 <= k < |rs| ==> rs[k] != Panics
  }

  ghost predicate EachWhole(ps: seq<Private>) {
    forall k :: 0 <= k < |ps| ==> Whole(ps[k])
  }

  /** Any sequence of operations on a machine with no processes, until it ends or one panics: every answer is the one
      due to a process that is alone with its memory. */
  method RunOps(lo: nat, hi: nat, data: nat, ops: seq<Op>) returns (w: Machine, rs: seq<Reply>, ghost shorts: seq<bool>)
    requires KLINK < data < KTOP && forall k :: 0 <= k < |ops| ==> Fits(ops[k])
    ensures |rs| == |shorts| <= |ops| && AnswerAll([], ops[..|rs|], shorts) == (rs, w.ps)
    ensures |rs| < |ops| ==> rs != [] && rs[|rs| - 1] == Panics
    ensures !GivesUp([], ops[..|rs|], shorts) ==> |rs| == |ops|
    ensures rs == [] || rs[|rs| - 1] != Panics ==> w.Valid()
  {
    hide AllShow, Answer, Short, AnswerAll, GivesUp, Fits, EachWhole;
    w := new Machine(lo, hi, data);
    rs, shorts := [], [];
    AnswerNone();
    for k := 0 to |ops|
      invariant w.Valid() && fresh(w) && fresh(w.m) && |rs| == |shorts| == k && AnswerAll([], ops[..k], shorts) == (rs, w.ps)
      invariant rs == [] || rs[|rs| - 1] != Panics
    {
      ghost var short := Short(w.m.St(), w.spaces, ops[k]);
      var r := w.Do(ops[k]);
      AnswerMore(ops, k, shorts, short);
      rs, shorts := rs + [r], shorts + [short];
      if r == Panics {
        break;
      }
    }
    if !GivesUp([], ops[..|rs|], shorts) {
      AllWhole(ops[..|rs|], shorts);
    }
    assert ops[..|ops|] == ops;
  }

  lemma {:induction false} AnswerNone()
    ensures AnswerAll([], [], []) == ([], [])
  {
  }

  lemma {:induction false} AnswerMore(ops: seq<Op>, k: nat, shorts: seq<bool>, short: bool)
    requires k < |ops| && |shorts| == k
    ensures var (rs, qs) := AnswerAll([], ops[..k], shorts);
            var (r, q) := Answer(qs, ops[k], short);
            AnswerAll([], ops[..k + 1], shorts + [short]) == (rs + [r], q)
  {
    hide Answer;
    var us, ss := ops[..k + 1], shorts + [short];
    assert us[..k] == ops[..k] && ss[..k] == shorts;
  }
}
