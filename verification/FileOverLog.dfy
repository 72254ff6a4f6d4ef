/** filewrite() of file.c on the log of log.c, with earlier calls before it and other calls beside it: whatever
    happens, a crash leaves a whole number of the write's chunks. */
module FileOverLog {
  import opened Options
  import opened Blocks
  import opened Volume
  import opened FileWrite
  import Dinodes
  import LogImages
  import LogRuns

  // ---------------------------------------------------------------- blocks with the inodes in them

  /** How an inode block is made of its inodes. */
  type Encoding = seq<Inode> -> Block

  predicate InodeBlock(sb: Super, n: nat, b: int) {
    sb.inodestart <= b && (b - sb.inodestart) * IPB < n
  }

  function InodesIn(sb: Super, dinode: seq<Inode>, b: int): (s: seq<Inode>)
    requires InodeBlock(sb, |dinode|, b)
  {
    var lo := (b - sb.inodestart) * IPB;
    dinode[lo..if lo + IPB < |dinode| then lo + IPB else |dinode|]
  }

  ghost function ImageBlock(sb: Super, s: Stored, enc: Encoding, b: int): (r: Block)
    requires 0 <= b < |s.disk|
  {
    if InodeBlock(sb, |s.dinode|, b) then enc(InodesIn(sb, s.dinode, b)) else s.disk[b]
  }

  /** The home blocks of a disk on which `s` is stored. */
  ghost function Image(lay: LogImages.Layout, sb: Super, s: Stored, enc: Encoding): (h: map<int, Block>) {
    map b | 0 <= b < |s.disk| && !LogImages.InLog(lay, b) :: ImageBlock(sb, s, enc, b)
  }

  /** Some inode differs if their block does. */
  lemma {:induction false} InodeDiffers(sb: Super, d: seq<Inode>, e: seq<Inode>, b: int) returns (j: nat)
    requires |e| == |d| && InodeBlock(sb, |d|, b) && InodesIn(sb, d, b) != InodesIn(sb, e, b)
    ensures j < |d| && d[j] != e[j] && IBlock(sb, j) == b
  {
    var s, t := InodesIn(sb, d, b), InodesIn(sb, e, b);
    var lo := (b - sb.inodestart) * IPB;
    var k :| 0 <= k < |s| && s[k] != t[k];
    j := lo + k;
    assert j / 8 == b - sb.inodestart;
  }

  /** Every block that a transaction changes, inode blocks among them, it has logged. */
  lemma {:induction false} ImageChanges(lay: LogImages.Layout, sb: Super, enc: Encoding, before: Stored, after: Stored, logged: set<int>, b: int)
    requires Recorded(sb, before, after, logged) && 0 <= b < |after.disk|
    ensures |before.disk| == |after.disk| && (ImageBlock(sb, after, enc, b) != ImageBlock(sb, before, enc, b) ==> b in logged)
  {
    hide InodesIn;
    if InodeBlock(sb, |after.dinode|, b) && InodesIn(sb, after.dinode, b) != InodesIn(sb, before.dinode, b) {
      var j := InodeDiffers(sb, after.dinode, before.dinode, b);
    }
  }

  // ---------------------------------------------------------------- the writes of one transaction

  /** The data of the last write of block `b`. */
  ghost function Last(ws: seq<LogRuns.Write>, b: int): (r: Option<Block>) {
    if ws == [] then None
    else if ws[|ws| - 1].block == b then Some(ws[|ws| - 1].data) else Last(ws[..|ws| - 1], b)
  }

  lemma {:induction false} ApplyAt(h: map<int, Block>, ws: seq<LogRuns.Write>, b: int)
    requires forall i :: 0 <= i < |ws| ==> ws[i].block in h
    ensures LogRuns.Apply(h, ws).Keys == h.Keys
    ensures b in h ==> LogRuns.Apply(h, ws)[b] == if Last(ws, b).Some? then Last(ws, b).value else h[b]
    decreases |ws|
  {
    if ws != [] {
      var n := |ws| - 1;
      assert forall i :: 0 <= i < n ==> ws[..n][i] == ws[i];
      ApplyAt(h, ws[..n], b);
    }
  }

  /** The log_writes of a transaction: only of blocks in `logged`, each of those in the end with what is
      stored afterwards. */
  ghost predicate Performs(lay: LogImages.Layout, sb: Super, enc: Encoding, c: Chunk, ws: seq<LogRuns.Write>) {
    var h := Image(lay, sb, c.after, enc);
    && (forall i :: 0 <= i < |ws| ==> ws[i].block in c.logged && ws[i].block in h)
    && (forall b :: b in c.logged && b in h ==> Last(ws, b) == Some(h[b]))
  }

  /** So they turn the blocks before into the blocks after. */
  lemma {:induction false} PerformsAll(lay: LogImages.Layout, sb: Super, enc: Encoding, c: Chunk, ws: seq<LogRuns.Write>)
    requires Recorded(sb, c.before, c.after, c.logged) && Performs(lay, sb, enc, c, ws)
    ensures LogRuns.Apply(Image(lay, sb, c.before, enc), ws) == Image(lay, sb, c.after, enc)
  {
    hide Last, LogRuns.Apply, ImageBlock, IBlock;
    var h, g := Image(lay, sb, c.before, enc), Image(lay, sb, c.after, enc);
    assert |c.before.disk| == |c.after.disk|;
    var r := LogRuns.Apply(h, ws);
    ApplyAt(h, ws, 0);
    assert r.Keys == g.Keys;
    forall b | b in g
      ensures r[b] == g[b]
    {
      ApplyAt(h, ws, b);
      ImageChanges(lay, sb, enc, c.before, c.after, c.logged, b);
      if b !in c.logged {
        NotLogged(ws, b, c.logged);
      }
    }
  }

  lemma {:induction false} NotLogged(ws: seq<LogRuns.Write>, b: int, logged: set<int>)
    requires b !in logged && forall i :: 0 <= i < |ws| ==> ws[i].block in logged
    ensures Last(ws, b) == None
    decreases |ws|
  {
    if ws != [] {
      var n := |ws| - 1;
      assert forall i :: 0 <= i < n ==> ws[..n][i] == ws[i];
      NotLogged(ws[..n], b, logged);
    }
  }

  /** Logging the blocks once each, in any order, is one way to do it. */
  ghost function Listing(h: map<int, Block>, order: seq<int>, id: nat): (ws: seq<LogRuns.Write>)
    requires forall i :: 0 <= i < |order| ==> order[i] in h
  {
    seq(|order|, i requires 0 <= i < |order| => LogRuns.Write(id, order[i], h[order[i]]))
  }

  lemma {:induction false} ListingLast(h: map<int, Block>, order: seq<int>, id: nat, b: int)
    requires b in order && forall i :: 0 <= i < |order| ==> order[i] in h
    ensures b in h && Last(Listing(h, order, id), b) == Some(h[b])
    decreases |order|
  {
    var n := |order| - 1;
    var ws := Listing(h, order, id);
    assert ws[..n] == Listing(h, order[..n], id);
    if order[n] != b {
      assert order == order[..n] + [order[n]];
      ListingLast(h, order[..n], id, b);
    }
  }

  lemma {:induction false} ListingPerforms(lay: LogImages.Layout, sb: Super, enc: Encoding, c: Chunk, order: seq<int>, id: nat)
    requires var h := Image(lay, sb, c.after, enc);
             && (forall i :: 0 <= i < |order| ==> order[i] in h && order[i] in c.logged)
             && forall b :: b in c.logged && b in h ==> b in order
    ensures var ws := Listing(Image(lay, sb, c.after, enc), order, id); Performs(lay, sb, enc, c, ws) && OneCall(ws)
  {
    hide Image, Last;
    var h := Image(lay, sb, c.after, enc);
    forall b | b in c.logged && b in h
      ensures Last(Listing(h, order, id), b) == Some(h[b])
    {
      ListingLast(h, order, id, b);
    }
  }

  /** The transaction never asks for more than begin_op() reserved. */
  lemma {:induction false} StaysInBudget(lay: LogImages.Layout, sb: Super, c: Chunk, s: LogRuns.State, i: nat, b: Word)
    requires Recorded(sb, c.before, c.after, c.logged) && i < |s.active| && s.active[i].logged <= c.logged
    requires b as int in c.logged && LogImages.HomeBlock(lay, |s.core.disk|, b)
    ensures LogRuns.WithinBudget(lay, s, i, b)
  {
    SubsetSize(s.active[i].logged + {b as int}, c.logged);
  }

  // ---------------------------------------------------------------- one transaction after another

  ghost function Flat(parts: seq<seq<LogRuns.Write>>): (ws: seq<LogRuns.Write>) {
    if parts == [] then [] else Flat(parts[..|parts| - 1]) + parts[|parts| - 1]
  }

  /** The writes of one system call. */
  ghost predicate OneCall(ws: seq<LogRuns.Write>) {
    forall i, j :: 0 <= i < j < |ws| ==> ws[i].op == ws[j].op
  }

  lemma {:induction false} ApplyAppend(h: map<int, Block>, a: seq<LogRuns.Write>, b: seq<LogRuns.Write>)
    ensures LogRuns.Apply(h, a + b) == LogRuns.Apply(LogRuns.Apply(h, a), b)
    decreases |b|
  {
    if b == [] {
      assert a + b == a;
    } else {
      var n := |b| - 1;
      assert (a + b)[..|a + b| - 1] == a + b[..n];
      ApplyAppend(h, a, b[..n]);
    }
  }

  /** What is stored after the first `k` transactions. */
  ghost function Boundary(s: Stored, chunks: seq<Chunk>, k: nat): (t: Stored)
    requires k <= |chunks|
  {
    if k == 0 then s else chunks[k - 1].after
  }

  lemma {:induction false} BoundaryStep(s: Stored, chunks: seq<Chunk>, t: Stored, k: nat)
    requires Chained(s, chunks, t) && k < |chunks|
    ensures chunks[k].before == Boundary(s, chunks, k) && chunks[k].after == Boundary(s, chunks, k + 1)
  {
  }

  ghost predicate AllPerform(lay: LogImages.Layout, sb: Super, enc: Encoding, chunks: seq<Chunk>, parts: seq<seq<LogRuns.Write>>) {
    && |parts| <= |chunks|
    && (forall k :: 0 <= k < |chunks| ==> Recorded(sb, chunks[k].before, chunks[k].after, chunks[k].logged))
    && (forall k :: 0 <= k < |parts| ==> OneCall(parts[k]) && Performs(lay, sb, enc, chunks[k], parts[k]))
  }

  lemma {:induction false} FlatApplies(lay: LogImages.Layout, sb: Super, enc: Encoding, s: Stored, chunks: seq<Chunk>, t: Stored, parts: seq<seq<LogRuns.Write>>, k: nat)
    requires Chained(s, chunks, t) && AllPerform(lay, sb, enc, chunks, parts) && k <= |parts|
    ensures LogRuns.Apply(Image(lay, sb, s, enc), Flat(parts[..k])) == Image(lay, sb, Boundary(s, chunks, k), enc)
    decreases k
  {
    hide Image, Performs, Recorded, Chained, OneCall;
    if k == 0 {
      assert parts[..0] == [];
    } else {
      FlatApplies(lay, sb, enc, s, chunks, t, parts, k - 1);
      assert parts[..k][..k - 1] == parts[..k - 1];
      ApplyAppend(Image(lay, sb, s, enc), Flat(parts[..k - 1]), parts[k - 1]);
      BoundaryStep(s, chunks, t, k - 1);
      PerformsAll(lay, sb, enc, chunks[k - 1], parts[k - 1]);
    }
  }

  /** A cut that goes through no call is between two of them. */
  lemma {:induction false} CutBetween(parts: seq<seq<LogRuns.Write>>, mark: nat) returns (k: nat)
    requires mark <= |Flat(parts)| && forall p :: 0 <= p < |parts| ==> OneCall(parts[p])
    requires forall i, j :: 0 <= i < mark <= j < |Flat(parts)| ==> Flat(parts)[i].op != Flat(parts)[j].op
    ensures k <= |parts| && mark == |Flat(parts[..k])| && Flat(parts)[..mark] == Flat(parts[..k])
    decreases |parts|
  {
    k := |parts|;
    assert parts[..k] == parts;
    if mark < |Flat(parts)| {
      var n := |parts| - 1;
      var front, all := Flat(parts[..n]), Flat(parts);
      assert all == front + parts[n];
      assert forall i :: |front| <= i < |all| ==> all[i] == parts[n][i - |front|];
      assert OneCall(parts[n]);
      assert forall i, j :: |front| <= i < j < |all| ==> all[i].op == all[j].op;
      assert mark > 0 ==> all[mark - 1].op != all[mark].op;
      if mark > |front| {
        assert false;
      }
      forall i, j | 0 <= i < mark <= j < |front|
        ensures front[i].op != front[j].op
      {
        assert all[i] == front[i] && all[j] == front[j];
      }
      k := CutBetween(parts[..n], mark);
      assert parts[..n][..k] == parts[..k];
      assert all[..mark] == front[..mark];
    }
  }

  // ---------------------------------------------------------------- other calls

  /** The log_writes of the calls in `ids`, in order. */
  ghost function Mine(ws: seq<LogRuns.Write>, ids: set<nat>): (r: seq<LogRuns.Write>) {
    if ws == [] then []
    else Mine(ws[..|ws| - 1], ids) + (if ws[|ws| - 1].op in ids then [ws[|ws| - 1]] else [])
  }

  lemma {:induction false} MineAppend(a: seq<LogRuns.Write>, b: seq<LogRuns.Write>, ids: set<nat>)
    ensures Mine(a + b, ids) == Mine(a, ids) + Mine(b, ids)
    decreases |b|
  {
    if b == [] {
      assert a + b == a;
    } else {
      var n := |b| - 1;
      assert (a + b)[..|a + b| - 1] == a + b[..n];
      MineAppend(a, b[..n], ids);
    }
  }

  lemma {:induction false} MineFrom(ws: seq<LogRuns.Write>, ids: set<nat>, i: nat) returns (p: nat)
    requires i < |Mine(ws, ids)|
    ensures p < |ws| && ws[p] == Mine(ws, ids)[i]
    decreases |ws|
  {
    var n := |ws| - 1;
    if i < |Mine(ws[..n], ids)| {
      p := MineFrom(ws[..n], ids, i);
    } else {
      p := n;
    }
  }

  /** The other calls leave `blocks` alone. */
  ghost predicate Elsewhere(ws: seq<LogRuns.Write>, ids: set<nat>, blocks: set<int>) {
    forall i :: 0 <= i < |ws| ==> ws[i].op in ids || ws[i].block !in blocks
  }

  lemma {:induction false} MineLast(ws: seq<LogRuns.Write>, ids: set<nat>, blocks: set<int>, b: int)
    requires Elsewhere(ws, ids, blocks) && b in blocks
    ensures Last(Mine(ws, ids), b) == Last(ws, b)
    decreases |ws|
  {
    if ws != [] {
      var n := |ws| - 1;
      assert forall i :: 0 <= i < n ==> ws[..n][i] == ws[i];
      MineLast(ws[..n], ids, blocks, b);
      var r := Mine(ws, ids);
      if ws[n].op in ids {
        assert r[..|r| - 1] == Mine(ws[..n], ids);
      } else {
        assert r == Mine(ws[..n], ids);
      }
    }
  }

  lemma {:induction false} ApplyLast(h: map<int, Block>, ws: seq<LogRuns.Write>, b: int)
    ensures b in LogRuns.Apply(h, ws) <==> b in h || Last(ws, b).Some?
    ensures b in LogRuns.Apply(h, ws) ==> LogRuns.Apply(h, ws)[b] == if Last(ws, b).Some? then Last(ws, b).value else h[b]
    decreases |ws|
  {
    if ws != [] {
      ApplyLast(h, ws[..|ws| - 1], b);
    }
  }

  ghost predicate Agree(h: map<int, Block>, g: map<int, Block>, blocks: set<int>) {
    forall b :: b in blocks && b in g ==> b in h && h[b] == g[b]
  }

  /** Writes that are the same as far as `blocks` go keep maps the same there. */
  lemma {:induction false} AgreeApply(h: map<int, Block>, g: map<int, Block>, blocks: set<int>, ws: seq<LogRuns.Write>, ids: set<nat>)
    requires Agree(h, g, blocks) && Elsewhere(ws, ids, blocks)
    ensures Agree(LogRuns.Apply(h, ws), LogRuns.Apply(g, Mine(ws, ids)), blocks)
  {
    hide LogRuns.Apply, Last, Mine, Elsewhere;
    forall b | b in blocks && b in LogRuns.Apply(g, Mine(ws, ids))
      ensures b in LogRuns.Apply(h, ws) && LogRuns.Apply(h, ws)[b] == LogRuns.Apply(g, Mine(ws, ids))[b]
    {
      MineLast(ws, ids, blocks, b);
      ApplyLast(h, ws, b);
      ApplyLast(g, Mine(ws, ids), b);
    }
  }

  // ---------------------------------------------------------------- the crash

  /** The state of the system when a write, whose calls are `ids`, began after the first `pre` log_writes:
      `parts` are its finished transactions, `tail` the log_writes of one that is still going on, and all other
      calls since have left `blocks` alone. */
  ghost predicate Logging(s: LogRuns.State, ids: set<nat>, blocks: set<int>, pre: nat, parts: seq<seq<LogRuns.Write>>, tail: seq<LogRuns.Write>) {
    && pre <= |s.writes| && Elsewhere(s.writes[pre..], ids, blocks)
    && Mine(s.writes[pre..], ids) == Flat(parts) + tail
    && AllActive(s, tail)
  }

  ghost predicate AllActive(s: LogRuns.State, tail: seq<LogRuns.Write>) {
    forall i :: 0 <= i < |tail| ==> exists j :: 0 <= j < |s.active| && s.active[j].id == tail[i].op
  }

  /** No call has writes on both sides of the mark, and no active call has any before it. */
  ghost predicate MarkCuts(s: LogRuns.State) {
    && s.mark <= |s.writes|
    && (forall i, j :: 0 <= i < s.mark <= j < |s.writes| ==> s.writes[i].op != s.writes[j].op)
    && (forall i, j :: 0 <= i < s.mark && 0 <= j < |s.active| ==> s.writes[i].op != s.active[j].id)
  }

  /** Of the write, the mark leaves whole transactions. */
  lemma {:induction false} MineCut(s: LogRuns.State, ids: set<nat>, blocks: set<int>, pre: nat, parts: seq<seq<LogRuns.Write>>, tail: seq<LogRuns.Write>) returns (k: nat)
    requires Logging(s, ids, blocks, pre, parts, tail) && MarkCuts(s) && pre <= s.mark
    requires forall p :: 0 <= p < |parts| ==> OneCall(parts[p])
    ensures k <= |parts| && Mine(s.writes[pre..s.mark], ids) == Flat(parts[..k])
  {
    hide Mine, Flat, OneCall, Elsewhere, AllActive;
    var mid, rest := s.writes[pre..s.mark], s.writes[s.mark..];
    assert s.writes[pre..] == mid + rest;
    MineAppend(mid, rest, ids);
    var a, b, all := Mine(mid, ids), Mine(rest, ids), Flat(parts) + tail;
    forall i, j | 0 <= i < |a| <= j < |all|
      ensures all[i].op != all[j].op
    {
      var p := MineFrom(mid, ids, i);
      var q := MineFrom(rest, ids, j - |a|);
      assert s.writes[pre + p] == all[i] && s.writes[s.mark + q] == all[j];
    }
    forall i, j | 0 <= i < |a| && 0 <= j < |s.active|
      ensures all[i].op != s.active[j].id
    {
      var p := MineFrom(mid, ids, i);
      assert s.writes[pre + p] == all[i];
    }
    TailAfter(s, a, all, parts, tail);
    var flat := Flat(parts);
    forall i, j | 0 <= i < |a| <= j < |flat|
      ensures flat[i].op != flat[j].op
    {
      assert all[i] == flat[i] && all[j] == flat[j];
    }
    k := CutBetween(parts, |a|);
    assert a == all[..|a|] == flat[..|a|];
  }

  lemma {:induction false} TailAfter(s: LogRuns.State, a: seq<LogRuns.Write>, all: seq<LogRuns.Write>, parts: seq<seq<LogRuns.Write>>, tail: seq<LogRuns.Write>)
    requires all == Flat(parts) + tail && |a| <= |all|
    requires AllActive(s, tail)
    requires forall i, j :: 0 <= i < |a| && 0 <= j < |s.active| ==> all[i].op != s.active[j].id
    ensures |a| <= |Flat(parts)|
  {
    hide Flat;
    if tail != [] {
      var i := |Flat(parts)|;
      assert all[i] == tail[0];
      var j :| 0 <= j < |s.active| && s.active[j].id == tail[0].op;
      assert all[i].op == s.active[j].id;
    }
  }

  /** Whatever crashes interrupt the recovery of the disk, `blocks` come back as in `h`. */
  ghost predicate ComesBack(lay: LogImages.Layout, disk: Disk, boots: seq<nat>, h: map<int, Block>, blocks: set<int>) {
    && LogImages.Recoverable(lay, disk)
    && (LogImages.CrashChain(lay, disk, boots) ==>
          Agree(LogImages.Home(lay, LogImages.Recover(lay, LogImages.AfterCrashes(lay, disk, boots))), h, blocks))
  }

  /** The system has run from a disk whose home blocks are `h` once it is recovered. */
  ghost predicate RunsFrom(lay: LogImages.Layout, d: Disk, es: seq<LogRuns.Event>, s: LogRuns.State, h: map<int, Block>) {
    && LogImages.Recoverable(lay, d) && LogImages.Home(lay, LogImages.Recover(lay, d)) == h
    && LogRuns.Run(lay, LogRuns.Init(lay, d), es) == LogRuns.Next(s)
  }

  lemma {:induction false} CrashesBack(lay: LogImages.Layout, d: Disk, es: seq<LogRuns.Event>, boots: seq<nat>, s: LogRuns.State,
                                       h: map<int, Block>, g: map<int, Block>, blocks: set<int>)
    requires RunsFrom(lay, d, es, s, h)
    ensures MarkCuts(s)
    ensures Agree(LogRuns.Apply(h, s.writes[..s.mark]), g, blocks) ==> ComesBack(lay, s.core.disk, boots, g, blocks)
  {
    hide LogRuns.Run, LogRuns.Init, LogImages.Recover, LogImages.Home, LogRuns.Apply, LogImages.CrashChain, LogImages.AfterCrashes,
      LogImages.Recoverable, Agree;
    LogRuns.CrashSafety(lay, d, es, boots);
  }

  /** Crash the machine at any point while the transactions of a write are being logged and committed beside
      those of other calls, and again during recovery any number of times: what comes back of the blocks of the
      write is what was stored after some of its transactions, the first `k`; or, if the machine had not yet
      committed all that came before the write, nothing of the write. */
  lemma {:induction false} CrashedTransactions(lay: LogImages.Layout, sb: Super, enc: Encoding, d: Disk, es: seq<LogRuns.Event>, boots: seq<nat>,
                                              s: LogRuns.State, h: map<int, Block>, ids: set<nat>, blocks: set<int>, pre: nat,
                                              start: Stored, chunks: seq<Chunk>,
                                              parts: seq<seq<LogRuns.Write>>, tail: seq<LogRuns.Write>) returns (k: nat)
    requires RunsFrom(lay, d, es, s, h) && Logging(s, ids, blocks, pre, parts, tail)
    requires Agree(LogRuns.Apply(h, s.writes[..pre]), Image(lay, sb, start, enc), blocks)
    requires Chained(start, chunks, LastOf(start, chunks)) && AllPerform(lay, sb, enc, chunks, parts)
    ensures k <= |parts| <= |chunks| && MarkCuts(s)
    ensures pre <= s.mark ==> ComesBack(lay, s.core.disk, boots, Image(lay, sb, Boundary(start, chunks, k), enc), blocks)
    ensures s.mark < pre ==> ComesBack(lay, s.core.disk, boots, LogRuns.Apply(h, s.writes[..s.mark]), blocks)
  {
    hide RunsFrom, ComesBack, LogRuns.Apply, Image, Flat, Performs, Recorded, Chained, LastOf, OneCall, Agree, Mine, MarkCuts;
    k := 0;
    var past := LogRuns.Apply(h, s.writes[..if s.mark <= |s.writes| then s.mark else 0]);
    CrashesBack(lay, d, es, boots, s, h, past, blocks);
    AgreeSelf(past, blocks);
    MarkIn(s);
    if pre <= s.mark {
      k := MineCut(s, ids, blocks, pre, parts, tail);
      var mid := s.writes[pre..s.mark];
      assert s.writes[..s.mark] == s.writes[..pre] + mid;
      ApplyAppend(h, s.writes[..pre], mid);
      assert Elsewhere(mid, ids, blocks) by { ElsewhereFirst(s.writes[pre..], mid, ids, blocks); }
      AgreeApply(LogRuns.Apply(h, s.writes[..pre]), Image(lay, sb, start, enc), blocks, mid, ids);
      FlatApplies(lay, sb, enc, start, chunks, LastOf(start, chunks), parts, k);
      CrashesBack(lay, d, es, boots, s, h, Image(lay, sb, Boundary(start, chunks, k), enc), blocks);
    }
  }

  lemma {:induction false} AgreeSelf(h: map<int, Block>, blocks: set<int>)
    ensures Agree(h, h, blocks)
  {
  }

  lemma {:induction false} MarkIn(s: LogRuns.State)
    requires MarkCuts(s)
    ensures s.mark <= |s.writes|
  {
  }

  lemma {:induction false} ElsewhereFirst(ws: seq<LogRuns.Write>, mid: seq<LogRuns.Write>, ids: set<nat>, blocks: set<int>)
    requires Elsewhere(ws, ids, blocks) && |mid| <= |ws| && mid == ws[..|mid|]
    ensures Elsewhere(mid, ids, blocks)
  {
  }

  /** For the transactions of filewrite(): what comes back is a sound volume, as far as `blocks` go, on which the
      file has the first `k` chunks of the write and nothing of the others, and every other file is as it was. */
  lemma {:induction false} WholeChunksSurvive(lay: LogImages.Layout, sb: Super, enc: Encoding, d: Disk, es: seq<LogRuns.Event>, boots: seq<nat>,
                                             s: LogRuns.State, h: map<int, Block>, ids: set<nat>, blocks: set<int>, pre: nat,
                                             v: Vol, ip: nat, off: nat, addr: seq<Byte>, chunks: seq<Chunk>,
                                             parts: seq<seq<LogRuns.Write>>, tail: seq<LogRuns.Write>) returns (k: nat, w: Vol)
    requires RunsFrom(lay, d, es, s, h) && Logging(s, ids, blocks, pre, parts, tail) && pre <= s.mark
    requires Agree(LogRuns.Apply(h, s.writes[..pre]), Image(lay, sb, Stored(v.disk, v.inode), enc), blocks)
    requires SoundNoHoles(sb, v, ip) && Chained(Stored(v.disk, v.inode), chunks, LastOf(Stored(v.disk, v.inode), chunks))
    requires forall j :: 0 <= j < |chunks| ==> Part(sb, v, true, chunks[j], j, ip, off, addr)
    requires AllPerform(lay, sb, enc, chunks, parts)
    ensures k <= |parts| && ComesBack(lay, s.core.disk, boots, Image(lay, sb, Stored(w.disk, w.inode), enc), blocks)
    ensures Partly(sb, v, w, ip, off, addr, Upto(k, |addr|))
    ensures if k == 0 then w == v else k <= |chunks| && w == chunks[k - 1].vol
  {
    hide RunsFrom, ComesBack, Image, Performs, Recorded, Chained, LastOf, OneCall, Partly, Logging, AllPerform, Agree, LogRuns.Apply, MarkCuts;
    var start := Stored(v.disk, v.inode);
    k := CrashedTransactions(lay, sb, enc, d, es, boots, s, h, ids, blocks, pre, start, chunks, parts, tail);
    if k == 0 {
      w := v;
      PartlyStart(sb, v, ip, off, addr);
    } else {
      w := chunks[k - 1].vol;
      assert Part(sb, v, true, chunks[k - 1], k - 1, ip, off, addr);
    }
  }

  // ---------------------------------------------------------------- what the blocks determine

  /** The log, the inodes and the data have blocks of their own. */
  ghost predicate Apart(lay: LogImages.Layout, sb: Super) {
    forall b :: LogImages.InLog(lay, b) ==> b < sb.nmeta && !InodeBlock(sb, sb.ninodes, b)
  }

  /** Inode blocks can be read back. */
  ghost predicate Readable(enc: Encoding) {
    forall x, y :: |x| == |y| <= IPB && Dinodes.AllFit(x) && Dinodes.AllFit(y) && enc(x) == enc(y) ==> x == y
  }

  /** As those of fs.h can. */
  lemma {:induction false} DinodesReadable()
    ensures Readable(Dinodes.Encode)
  {
    hide Dinodes.Encode, Dinodes.AllFit;
    forall x, y | |x| == |y| <= IPB && Dinodes.AllFit(x) && Dinodes.AllFit(y) && Dinodes.Encode(x) == Dinodes.Encode(y)
      ensures x == y
    {
      Dinodes.EncodeInjective(x, y);
    }
  }

  /** All that file `ip` of volume `w` consists of is among `blocks`: its inode block, its data blocks and its
      indirect block. */
  ghost predicate Holds(sb: Super, w: Vol, ip: nat, blocks: set<int>) {
    IBlock(sb, ip) as int in blocks && forall a :: a in w.owner && w.owner[a].ino == ip ==> a in blocks
  }

  lemma {:induction false} InodeThere(lay: LogImages.Layout, sb: Super, enc: Encoding, w: Vol, x: Vol, ip: nat, blocks: set<int>)
    requires ValidSuper(sb) && Apart(lay, sb) && Readable(enc) && ip < sb.ninodes == |w.inode| == |x.inode|
    requires Dinodes.AllFit(w.inode) && Dinodes.AllFit(x.inode)
    requires sb.size <= |w.disk| == |x.disk| && IBlock(sb, ip) as int in blocks
    requires Agree(Image(lay, sb, Stored(x.disk, x.inode), enc), Image(lay, sb, Stored(w.disk, w.inode), enc), blocks)
    ensures x.inode[ip] == w.inode[ip]
  {
    hide InodesIn, InodeBlock, IBlock, ValidSuper, ImageBlock, Dinodes.AllFit;
    var b := IBlock(sb, ip) as int;
    InodePlace(sb, ip);
    InodeIn(sb, w.inode, ip);
    InodeIn(sb, x.inode, ip);
    ImageInodes(sb, w, enc, b);
    ImageInodes(sb, x, enc, b);
    InodesFit(sb, w.inode, b);
    InodesFit(sb, x.inode, b);
    assert ImageBlock(sb, Stored(x.disk, x.inode), enc, b) == ImageBlock(sb, Stored(w.disk, w.inode), enc, b);
  }

  lemma {:induction false} InodesFit(sb: Super, ds: seq<Inode>, b: int)
    requires InodeBlock(sb, |ds|, b) && Dinodes.AllFit(ds)
    ensures Dinodes.AllFit(InodesIn(sb, ds, b)) && |InodesIn(sb, ds, b)| <= IPB
  {
    hide Dinodes.Fits;
  }

  lemma {:induction false} ImageInodes(sb: Super, w: Vol, enc: Encoding, b: int)
    requires InodeBlock(sb, |w.inode|, b) && 0 <= b < |w.disk|
    ensures ImageBlock(sb, Stored(w.disk, w.inode), enc, b) == enc(InodesIn(sb, w.inode, b))
  {
    hide InodesIn, InodeBlock;
  }

  lemma {:induction false} InodeIn(sb: Super, ds: seq<Inode>, ip: nat)
    requires ValidSuper(sb) && ip < sb.ninodes == |ds|
    ensures var b := IBlock(sb, ip) as int;
            && InodeBlock(sb, |ds|, b)
            && var s := InodesIn(sb, ds, b);
               |s| == Inodes(sb, b) && ip % 8 < |s| && s[ip % 8] == ds[ip]
  {
    InodePlace(sb, ip);
  }

  /** How many inodes are in an inode block. */
  function Inodes(sb: Super, b: int): (n: int) {
    var lo := (b - sb.inodestart) * IPB;
    (if lo + IPB < sb.ninodes then lo + IPB else sb.ninodes) - lo
  }

  lemma {:induction false} InodePlace(sb: Super, ip: nat)
    requires ValidSuper(sb) && ip < sb.ninodes
    ensures var b := IBlock(sb, ip);
            && InodeBlock(sb, sb.ninodes, b) && 0 <= b < sb.nmeta <= sb.size && (b - sb.inodestart) * IPB + ip % 8 == ip
  {
    assert ip == 8 * (ip / 8) + ip % 8;
    assert ip / 8 <= sb.ninodes / 8;
  }

  lemma {:induction false} DataThere(lay: LogImages.Layout, sb: Super, enc: Encoding, w: Vol, x: Vol, a: nat, blocks: set<int>)
    requires ValidSuper(sb) && Apart(lay, sb) && sb.ninodes == |w.inode| == |x.inode| && |w.disk| == |x.disk|
    requires sb.nmeta <= a < |w.disk| && a as int in blocks
    requires Agree(Image(lay, sb, Stored(x.disk, x.inode), enc), Image(lay, sb, Stored(w.disk, w.inode), enc), blocks)
    ensures x.disk[a] == w.disk[a]
  {
    PastInodes(sb, a);
    var b := a as int;
    assert ImageBlock(sb, Stored(x.disk, x.inode), enc, b) == ImageBlock(sb, Stored(w.disk, w.inode), enc, b);
  }

  lemma {:induction false} PastInodes(sb: Super, a: nat)
    requires ValidSuper(sb) && sb.nmeta <= a
    ensures !InodeBlock(sb, sb.ninodes, a)
  {
    assert sb.ninodes < 8 * (sb.ninodes / 8) + 8;
    assert a - sb.inodestart >= sb.ninodes / 8 + 1;
  }

  /** So is the address of a block of the file, and the block. */
  lemma {:induction false} BlockThere(lay: LogImages.Layout, sb: Super, enc: Encoding, w: Vol, x: Vol, ip: nat, blocks: set<int>, bn: nat)
    requires Sound(sb, w) && Shaped(sb, x) && Apart(lay, sb) && |w.disk| == |x.disk| && ip < sb.ninodes && bn < MAXFILE
    requires Holds(sb, w, ip, blocks) && x.inode[ip] == w.inode[ip]
    requires Agree(Image(lay, sb, Stored(x.disk, x.inode), enc), Image(lay, sb, Stored(w.disk, w.inode), enc), blocks)
    ensures var a := BlockAddr(sb, w, ip, bn);
            BlockAddr(sb, x, ip, bn) == a && (a != 0 ==> a < |w.disk| && x.disk[a] == w.disk[a])
  {
    hide Image, Agree, Marked, Apart, GetWord;
    var t := w.inode[ip].addrs[NDIRECT];
    assert AddrOf(sb, w, Table(ip)) == t;
    if t != 0 {
      assert t as int in w.owner && w.owner[t as int] == Table(ip);
      DataThere(lay, sb, enc, w, x, t, blocks);
    }
    var s := FileSlot(ip, bn);
    assert SlotOk(sb, s);
    var a := AddrOf(sb, w, s);
    assert AddrOf(sb, x, s) == a;
    if a != 0 {
      assert a as int in w.owner && w.owner[a as int] == s;
      DataThere(lay, sb, enc, w, x, a, blocks);
    }
  }

  /** A volume on a disk that has these blocks of `w` has the same file. */
  lemma {:induction false} FileDetermined(lay: LogImages.Layout, sb: Super, enc: Encoding, w: Vol, x: Vol, ip: nat, blocks: set<int>)
    requires Sound(sb, w) && Shaped(sb, x) && Apart(lay, sb) && Readable(enc) && |w.disk| == |x.disk| && ip < sb.ninodes
    requires Holds(sb, w, ip, blocks) && Dinodes.AllFit(w.inode) && Dinodes.AllFit(x.inode)
    requires Agree(Image(lay, sb, Stored(x.disk, x.inode), enc), Image(lay, sb, Stored(w.disk, w.inode), enc), blocks)
    ensures x.inode[ip] == w.inode[ip] && Content(sb, x, ip) == Content(sb, w, ip)
  {
    InodeThere(lay, sb, enc, w, x, ip, blocks);
    assert ShapedInode(sb, w.inode[ip]);
    hide Image, Agree, Owned, Marked, Apart, BlockAddr, Holds, Shaped;
    forall p | 0 <= p < w.inode[ip].size
      ensures ByteAt(sb, x, ip, p) == ByteAt(sb, w, ip, p)
    {
      BlockThere(lay, sb, enc, w, x, ip, blocks, p / BSIZE);
    }
    SameContent(sb, w, x, ip);
  }

  /** The blocks that come back are those of a volume `x`. */
  ghost predicate Found(lay: LogImages.Layout, sb: Super, enc: Encoding, disk: Disk, boots: seq<nat>, x: Vol) {
    && Shaped(sb, x) && LogImages.Recoverable(lay, disk) && LogImages.CrashChain(lay, disk, boots)
    && LogImages.Home(lay, LogImages.Recover(lay, LogImages.AfterCrashes(lay, disk, boots))) == Image(lay, sb, Stored(x.disk, x.inode), enc)
  }

  /** Put together: the file that is found after the crash has exactly the first `k` chunks of the write, if no
      other call wrote the blocks it consists of. */
  lemma {:induction false} FileSurvives(lay: LogImages.Layout, sb: Super, enc: Encoding, disk: Disk, boots: seq<nat>, blocks: set<int>,
                                       v: Vol, w: Vol, x: Vol, ip: nat, off: nat, addr: seq<Byte>, n: nat)
    requires ComesBack(lay, disk, boots, Image(lay, sb, Stored(w.disk, w.inode), enc), blocks) && Partly(sb, v, w, ip, off, addr, n)
    requires Found(lay, sb, enc, disk, boots, x) && |w.disk| == |x.disk|
    requires Apart(lay, sb) && Readable(enc) && Holds(sb, w, ip, blocks) && Dinodes.AllFit(w.inode) && Dinodes.AllFit(x.inode)
    ensures Shaped(sb, v) && Content(sb, x, ip) == if n == 0 then Content(sb, v, ip) else Overwrite(Content(sb, v, ip), off, addr[..n])
  {
    hide Image, Agree, Sound, NoHoles, Content, Apart, Holds, Shaped, OthersSame,
      LogImages.Recover, LogImages.Home, LogImages.CrashChain, LogImages.AfterCrashes, LogImages.Recoverable;
    SoundShaped(sb, v);
    SoundShaped(sb, w);
    FileDetermined(lay, sb, enc, w, x, ip, blocks);
  }
}
