/** Whose bytes go through the pipe: in every run each pipewrite() stores its buffer from the front, byte by byte
    and nothing twice, and what readers get is what was stored. */
module PipeBooks {
  import opened Options
  import opened Blocks
  import opened Pipe
  import opened PipeRuns

  /** The bytes among `bytes` that come from call `c`, in order. */
  function Sent(bytes: seq<Byte>, origin: seq<nat>, c: nat): (r: seq<Byte>)
    requires |bytes| == |origin|
  {
    if bytes == [] then []
    else
      var n := |bytes| - 1;
      Sent(bytes[..n], origin[..n], c) + (if origin[n] == c then [bytes[n]] else [])
  }

  function AllGot(fetches: seq<ReadCall>): (r: seq<Byte>) {
    if fetches == [] then []
    else
      var n := |fetches| - 1;
      AllGot(fetches[..n]) + (if fetches[n].got.Some? then fetches[n].got.value else [])
  }

  /** What call `c` has stored: as far as it has come, all of it if it has returned, less if it has given up. */
  ghost predicate CallKept(s: State, c: nat)
    requires |s.stored| == |s.origin| && c < |s.writes|
  {
    var w, sent := s.writes[c], Sent(s.stored, s.origin, c);
    match w.fate
    case Going => w.p < |s.user| && s.user[w.p].Writing? && s.user[w.p].call == c
    case Returned => sent == w.buf
    case GaveUp => sent < w.buf
  }

  /** A process inside pipewrite() has stored its buffer up to where it is. */
  ghost predicate UserKept(s: State, p: nat)
    requires |s.stored| == |s.origin| && p < |s.user|
  {
    var u := s.user[p];
    u.Writing? ==>
      && u.call < |s.writes| && s.writes[u.call] == WriteCall(p, u.buf, Going)
      && u.i < |u.buf| && Sent(s.stored, s.origin, u.call) == u.buf[..u.i]
  }

  ghost predicate Kept(s: State) {
    && ValidRing(s.ring) && |s.origin| == |s.stored|
    && (forall k :: 0 <= k < |s.origin| ==> s.origin[k] < |s.writes|)
    && (forall c: nat :: c < |s.writes| ==> CallKept(s, c))
    && (forall p: nat :: p < |s.user| ==> UserKept(s, p))
    && AllGot(s.fetches) == s.delivered
  }

  // ---------------------------------------------------------------- histories

  lemma {:induction false} SentMore(bytes: seq<Byte>, origin: seq<nat>, more: seq<Byte>, d: nat, c: nat)
    requires |bytes| == |origin|
    ensures Sent(bytes + more, origin + seq(|more|, _ => d), c) == Sent(bytes, origin, c) + (if c == d then more else [])
  {
    var m := |more|;
    if m == 0 {
      assert bytes + more == bytes && origin + seq(m, _ => d) == origin;
    } else {
      var os: seq<nat> := seq(m, _ => d);
      SentMore(bytes, origin, more[..m - 1], d, c);
      assert os[..m - 1] == seq(m - 1, _ => d);
      assert (bytes + more)[..|bytes + more| - 1] == bytes + more[..m - 1];
      assert (origin + os)[..|bytes + more| - 1] == origin + os[..m - 1];
      assert more[..m - 1] + [more[m - 1]] == more;
    }
  }

  lemma {:induction false} SentNone(bytes: seq<Byte>, origin: seq<nat>, c: nat)
    requires |bytes| == |origin| && forall k :: 0 <= k < |origin| ==> origin[k] < c
    ensures Sent(bytes, origin, c) == []
  {
    if bytes != [] {
      var n := |bytes| - 1;
      SentNone(bytes[..n], origin[..n], c);
    }
  }

  /** The first bytes of call `c` among the first bytes stored. */
  lemma {:induction false} SentPrefix(bytes: seq<Byte>, origin: seq<nat>, c: nat, m: nat)
    requires |bytes| == |origin| && m <= |bytes|
    ensures Sent(bytes[..m], origin[..m], c) <= Sent(bytes, origin, c)
  {
    var n := |bytes| - 1;
    if m == |bytes| {
      assert bytes[..m] == bytes && origin[..m] == origin;
    } else {
      SentPrefix(bytes[..n], origin[..n], c, m);
      assert bytes[..n][..m] == bytes[..m] && origin[..n][..m] == origin[..m];
    }
  }

  // ---------------------------------------------------------------- steps

  /** Nothing about writers changes but who sleeps. */
  ghost predicate SameWriters(s: State, t: State) {
    && |t.user| == |s.user| && t.writes == s.writes && t.stored == s.stored && t.origin == s.origin
    && forall p: nat :: p < |s.user| ==> SameWriter(s.user[p], t.user[p])
  }

  ghost predicate SameWriter(u: User, v: User) {
    (u.Writing? <==> v.Writing?) && (u.Writing? && v.Writing? ==> v.call == u.call && v.buf == u.buf && v.i == u.i)
  }

  lemma {:induction false} KeptSame(s: State, t: State)
    requires Kept(s) && SameWriters(s, t) && ValidRing(t.ring) && AllGot(t.fetches) == t.delivered
    ensures Kept(t)
  {
    hide Sent, AllGot;
    forall c: nat | c < |t.writes|
      ensures CallKept(t, c)
    {
      assert CallKept(s, c);
      if s.writes[c].fate.Going? {
        assert SameWriter(s.user[s.writes[c].p], t.user[s.writes[c].p]);
      }
    }
    forall p: nat | p < |t.user|
      ensures UserKept(t, p)
    {
      assert UserKept(s, p) && SameWriter(s.user[p], t.user[p]);
    }
  }

  lemma {:induction false} KeptRead(s: State, p: nat, n: nat)
    requires Kept(s) && Fifo(s) && p < |s.user| && !s.user[p].Writing?
    ensures Kept(ReadRegion(s, p, n))
  {
    var t := ReadRegion(s, p, n);
    FifoRead(s, p, n);
    hide Sent, Queue, DropAll, Kept, Count, IsEmpty, Fifo;
    assert ValidRing(t.ring) by { FifoValid(t); }
    if t.fetches != s.fetches {
      assert t.fetches[..|t.fetches| - 1] == s.fetches;
    }
    assert AllGot(t.fetches) == t.delivered by { KeptGot(s); }
    KeptSame(s, t);
  }

  lemma {:induction false} KeptGot(s: State)
    requires Kept(s)
    ensures AllGot(s.fetches) == s.delivered
  {
  }

  /** pipewrite() number `c` is about to go on from byte `i`: the books are right but for that call. */
  ghost predicate Ready(s: State, p: nat, c: nat, buf: seq<Byte>, i: nat) {
    && ValidRing(s.ring) && |s.origin| == |s.stored| && p < |s.user| && c < |s.writes| && i <= |buf|
    && (forall k :: 0 <= k < |s.origin| ==> s.origin[k] < |s.writes|)
    && s.writes[c] == WriteCall(p, buf, Going) && Sent(s.stored, s.origin, c) == buf[..i]
    && (forall d: nat :: d < |s.writes| && d != c ==> CallKept(s, d) && (s.writes[d].fate.Going? ==> s.writes[d].p != p))
    && (forall q: nat :: q < |s.user| && q != p ==> UserKept(s, q))
    && AllGot(s.fetches) == s.delivered
  }

  lemma {:induction false} KeptWrite(s: State, p: nat, c: nat, buf: seq<Byte>, i: nat)
    requires Ready(s, p, c, buf, i) && Fifo(s)
    ensures Kept(WriteRegion(s, p, c, buf, i))
  {
    FifoWrite(s, p, c, buf, i);
    hide Sent, Queue, Count, PutAll, AllGot, Fifo;
    var t := WriteRegion(s, p, c, buf, i);
    var k := Fitting(s.ring, |buf| - i);
    assert ValidRing(t.ring) by { FifoValid(t); }
    hide Fitting;
    forall d: nat | d < |t.writes|
      ensures CallKept(t, d)
    {
      WroteCall(s, p, c, buf, i, t, d);
    }
    forall q: nat | q < |t.user|
      ensures UserKept(t, q)
    {
      WroteUser(s, p, c, buf, i, t, q);
    }
  }

  lemma {:induction false} WroteCall(s: State, p: nat, c: nat, buf: seq<Byte>, i: nat, t: State, d: nat)
    requires Ready(s, p, c, buf, i) && t == WriteRegion(s, p, c, buf, i) && d < |s.writes|
    ensures |t.stored| == |t.origin| && d < |t.writes| && CallKept(t, d)
  {
    hide Sent, Queue, Count, PutAll, AllGot;
    var k := Fitting(s.ring, |buf| - i);
    SentMore(s.stored, s.origin, buf[i..i + k], c, d);
    if d == c {
      assert buf[..i] + buf[i..i + k] == buf[..i + k];
    } else {
      assert CallKept(s, d);
    }
  }

  lemma {:induction false} WroteUser(s: State, p: nat, c: nat, buf: seq<Byte>, i: nat, t: State, q: nat)
    requires Ready(s, p, c, buf, i) && t == WriteRegion(s, p, c, buf, i) && q < |s.user|
    ensures |t.stored| == |t.origin| && q < |t.user| && UserKept(t, q)
  {
    hide Sent, Queue, Count, PutAll, AllGot;
    var k := Fitting(s.ring, |buf| - i);
    if q == p {
      SentMore(s.stored, s.origin, buf[i..i + k], c, c);
      assert buf[..i] + buf[i..i + k] == buf[..i + k];
    } else {
      assert UserKept(s, q);
      if s.user[q].Writing? {
        SentMore(s.stored, s.origin, buf[i..i + k], c, s.user[q].call);
      }
    }
  }

  /** A new call has stored nothing. */
  lemma {:induction false} ReadyBegun(s: State, p: nat, buf: seq<Byte>)
    requires Kept(s) && p < |s.user| && s.user[p].Away?
    ensures Ready(Begun(s, p, buf), p, |s.writes|, buf, 0)
  {
    hide Sent, AllGot;
    var t := Begun(s, p, buf);
    SentNone(s.stored, s.origin, |s.writes|);
    forall d: nat | d < |s.writes|
      ensures CallKept(t, d) && (t.writes[d].fate.Going? ==> t.writes[d].p != p)
    {
      assert CallKept(s, d);
    }
    forall q: nat | q < |s.user|
      ensures UserKept(t, q)
    {
      assert UserKept(s, q);
    }
  }

  lemma {:induction false} ReadyResumed(s: State, p: nat)
    requires Kept(s) && p < |s.user| && s.user[p].Writing?
    ensures Ready(s, p, s.user[p].call, s.user[p].buf, s.user[p].i)
  {
    hide Sent, AllGot;
    assert UserKept(s, p);
    forall d: nat | d < |s.writes| && d != s.user[p].call
      ensures CallKept(s, d) && (s.writes[d].fate.Going? ==> s.writes[d].p != p)
    {
      assert CallKept(s, d);
    }
  }

  lemma {:induction false} KeptStep(s: State, e: Event)
    requires Kept(s) && Fifo(s) && Step(s, e).Some?
    ensures Kept(Step(s, e).value)
  {
    hide Kept, Fifo, Ready, WriteRegion, ReadRegion, Queue, Count;
    match e {
      case Write(p, buf) =>
        ReadyBegun(s, p, buf);
        BegunFifo(s, p, buf);
        KeptWrite(Begun(s, p, buf), p, |s.writes|, buf, 0);
      case Read(p, n) => KeptRead(s, p, n);
      case Resume(p) =>
        if s.user[p].Writing? {
          ReadyResumed(s, p);
          KeptWrite(s, p, s.user[p].call, s.user[p].buf, s.user[p].i);
        } else {
          KeptRead(s, p, s.user[p].n);
        }
      case CloseRead => KeptQuiet(s, e);
      case CloseWrite => KeptQuiet(s, e);
      case Kill(_) => KeptQuiet(s, e);
    }
  }

  lemma {:induction false} BegunFifo(s: State, p: nat, buf: seq<Byte>)
    requires Fifo(s)
    ensures Fifo(Begun(s, p, buf))
  {
  }

  lemma {:induction false} KeptQuiet(s: State, e: Event)
    requires Kept(s) && Step(s, e).Some? && (e.CloseRead? || e.CloseWrite? || e.Kill?)
    ensures Kept(Step(s, e).value)
  {
    hide Sent, AllGot, Queue, CallKept, UserKept;
    KeptSame(s, Step(s, e).value);
  }

  lemma {:induction false} RunKept(s: State, es: seq<Event>)
    requires Init(s) && Run(s, es).Some?
    ensures Kept(Run(s, es).value)
  {
    hide Step, Queue, Kept;
    if es == [] {
      KeptInit(s);
    } else {
      RunKept(s, es[..|es| - 1]);
      RunOpen(s, es[..|es| - 1]);
      KeptStep(Run(s, es[..|es| - 1]).value, es[|es| - 1]);
    }
  }

  lemma {:induction false} KeptInit(s: State)
    requires Init(s)
    ensures Kept(s)
  {
  }

  // ---------------------------------------------------------------- main results

  /** In every run, with any number of writers, readers and kills: what a pipewrite() has stored is the front of
      its buffer, as far as it has come; all of it once it has returned, and not all of it if it gave up. What the
      calls of piperead() returned, one after the other, is what was stored, from the front; so each call's bytes
      come out in the order of its buffer, and once it has returned and the pipe is empty all of them have. */
  lemma {:induction false} BuffersArrive(s: State, es: seq<Event>, c: nat)
    requires Init(s) && Run(s, es).Some? && c < |Run(s, es).value.writes|
    ensures var t := Run(s, es).value;
            && |t.origin| == |t.stored| && |t.delivered| <= |t.stored| && ValidRing(t.ring)
            && AllGot(t.fetches) == t.delivered == t.stored[..|t.delivered|]
            && var w, sent := t.writes[c], Sent(t.stored, t.origin, c);
               && sent <= w.buf && (w.fate.Returned? ==> sent == w.buf) && (w.fate.GaveUp? ==> sent < w.buf)
               && (w.fate.Going? ==> w.p < |t.user| && t.user[w.p].Writing? && t.user[w.p].call == c && t.user[w.p].buf == w.buf
                                     && sent == w.buf[..|sent|] && |sent| == t.user[w.p].i < |w.buf|)
               && var got := Sent(t.delivered, t.origin[..|t.delivered|], c);
                  got <= sent && (Count(t.ring) == 0 ==> got == sent)
  {
    hide Run, Init, Sent, AllGot;
    RunKept(s, es);
    RunOpen(s, es);
    var t := Run(s, es).value;
    assert CallKept(t, c);
    if t.writes[c].fate.Going? {
      assert UserKept(t, t.writes[c].p);
    }
    SentPrefix(t.stored, t.origin, c, |t.delivered|);
    if Count(t.ring) == 0 {
      assert t.delivered == t.stored && t.origin[..|t.delivered|] == t.origin;
    }
  }

  /** In every run: whoever is awake in a call can go on, whoever is in none can begin one on an open end, and an
      end nobody uses can be closed. */
  lemma {:induction false} GoesOn(s: State, es: seq<Event>, e: Event)
    requires Init(s) && Run(s, es).Some?
    ensures var t := Run(s, es).value;
            && ValidRing(t.ring)
            && (Step(t, e).Some? <==>
                  match e
                  case Write(p, _) => p < |t.user| && t.user[p] == Away && t.writeopen
                  case Read(p, _) => p < |t.user| && t.user[p] == Away && t.readopen
                  case Resume(p) => p < |t.user| && t.user[p] != Away && !t.user[p].asleep
                  case CloseRead => t.readopen && forall q :: 0 <= q < |t.user| ==> !t.user[q].Reading?
                  case CloseWrite => t.writeopen && forall q :: 0 <= q < |t.user| ==> !t.user[q].Writing?
                  case Kill(p) => p < |t.user|)
  {
    RunKept(s, es);
    hide Run, Init, Sent, AllGot, Queue, WriteRegion, ReadRegion;
    var t := Run(s, es).value;
    if e.Resume? && e.p < |t.user| {
      assert UserKept(t, e.p);
    }
  }

  /** One stretch of pipewrite() under the lock, said on the queue: as much of the buffer as there is room for is
      appended; the call returns if that was all, gives up if it is not and there is no reader or the process is
      killed, and sleeps otherwise; readers sleep on only if it gave up. */
  lemma {:induction false} WriteExactly(s: State, p: nat, c: nat, buf: seq<Byte>, i: nat)
    requires Fifo(s) && p < |s.user| && c < |s.writes| && i <= |buf|
    ensures var t, q, room := WriteRegion(s, p, c, buf, i), Queue(s.ring), PIPESIZE - |Queue(s.ring)|;
            var k := if |buf| - i <= room then |buf| else i + room;
            && ValidRing(t.ring) && Queue(t.ring) == q + buf[i..k] && t.delivered == s.delivered && t.fetches == s.fetches
            && |t.user| == |s.user| && |t.writes| == |s.writes| && t.writes[c].buf == s.writes[c].buf
            && t.writes[c].fate == (if k == |buf| then Returned else if !s.readopen || p in s.killed then GaveUp else s.writes[c].fate)
            && t.user[p] == (if k < |buf| && s.readopen && p !in s.killed then Writing(c, buf, k, true) else Away)
            && (forall j :: 0 <= j < |s.user| && j != p && s.user[j].Reading? ==>
                  t.user[j] == if k < |buf| && (!s.readopen || p in s.killed) then s.user[j] else Reading(s.user[j].n, false))
            && (forall j :: 0 <= j < |s.user| && j != p && !s.user[j].Reading? ==> t.user[j] == s.user[j])
  {
    hide Queue, Count, PutAll;
    PutAllQueue(s.ring, buf[i..i + Fitting(s.ring, |buf| - i)]);
  }

  /** piperead() under the lock: it sleeps or fails exactly on an empty pipe open for writing, and otherwise returns
      the oldest bytes, as many as asked for or all there are; every writer is awake afterwards. */
  lemma {:induction false} ReadExactly(s: State, p: nat, n: nat)
    requires Fifo(s) && p < |s.user|
    ensures var t, q := ReadRegion(s, p, n), Queue(s.ring);
            && ValidRing(t.ring) && |t.user| == |s.user| && t.stored == s.stored && t.writes == s.writes
            && (if q == [] && s.writeopen then
                  && Queue(t.ring) == q && t.fetches == (if p in s.killed then s.fetches + [ReadCall(p, n, None)] else s.fetches)
                  && t.user == s.user[p := if p in s.killed then Away else Reading(n, true)]
                else
                  && (exists got :: q == got + Queue(t.ring) && t.fetches == s.fetches + [ReadCall(p, n, Some(got))]
                                    && |got| == if n <= |q| then n else |q|)
                  && t.user[p] == Away
                  && (forall j :: 0 <= j < |s.user| && j != p && s.user[j].Writing? ==>
                        t.user[j] == Writing(s.user[j].call, s.user[j].buf, s.user[j].i, false))
                  && (forall j :: 0 <= j < |s.user| && j != p && !s.user[j].Writing? ==> t.user[j] == s.user[j]))
  {
    FullEmpty(s.ring);
    hide Queue, Count, IsEmpty, DropAll;
    if !(IsEmpty(s.ring) && s.writeopen) {
      var m := if n <= Count(s.ring) then n else Count(s.ring);
      DropAllQueue(s.ring, m);
      assert Queue(s.ring) == Queue(s.ring)[..m] + Queue(s.ring)[m..];
    }
  }

  /** pipeclose() closes one end and wakes everybody who waits for the other; a kill marks the process and wakes it. */
  lemma {:induction false} CloseExactly(s: State, e: Event)
    requires ValidRing(s.ring) && Step(s, e).Some? && (e.CloseRead? || e.CloseWrite? || e.Kill?)
    ensures var t := Step(s, e).value;
            && t.ring == s.ring && t.stored == s.stored && t.delivered == s.delivered && t.writes == s.writes && t.fetches == s.fetches
            && t.readopen == (s.readopen && !e.CloseRead?) && t.writeopen == (s.writeopen && !e.CloseWrite?)
            && t.killed == (if e.Kill? then s.killed + {e.p} else s.killed) && |t.user| == |s.user|
            && forall j :: 0 <= j < |s.user| ==>
                 match s.user[j]
                 case Away => t.user[j] == Away
                 case Writing(c, buf, i, asleep) => t.user[j] == Writing(c, buf, i, asleep && !e.CloseRead? && e != Kill(j))
                 case Reading(n, asleep) => t.user[j] == Reading(n, asleep && !e.CloseWrite? && e != Kill(j))
  {
    hide Count;
  }

  // ---------------------------------------------------------------- code

  /** struct pipe, its users, and who of them is asleep. */
  class Device {
    const ring: PipeBuf
    var readopen: bool
    var writeopen: bool
    var user: seq<User>
    var killed: set<nat>
    ghost var stored: seq<Byte>
    ghost var origin: seq<nat>
    ghost var delivered: seq<Byte>
    ghost var writes: seq<WriteCall>
    ghost var fetches: seq<ReadCall>

    ghost function View(): (s: State)
      reads this, ring, ring.data
    {
      State(ring.Val(), readopen, writeopen, user, killed, stored, origin, delivered, writes, fetches)
    }

    /** pipealloc(), for `n` processes. */
    constructor (n: nat)
      ensures Init(View()) && |user| == n && fresh(ring) && fresh(ring.data)
    {
      ring := new PipeBuf();
      readopen, writeopen, user, killed := true, true, seq(n, _ => Away), {};
      stored, origin, delivered, writes, fetches := [], [], [], [], [];
    }

    /** pipewrite() from byte `i` of `buf`, from taking the lock or waking up to returning or sleeping. */
    method PipeWrite(p: nat, c: nat, buf: seq<Byte>, i: nat) returns (fate: Fate)
      requires Fifo(View()) && p < |user| && c < |writes| && writes[c].fate == Going && i <= |buf|
      modifies this, ring, ring.data
      ensures View() == WriteRegion(old(View()), p, c, buf, i) && fate == writes[c].fate
    {
      hide Queue, Count, PutAll;
      ghost var s := View();
      var k := ring.Write(buf, i);
      stored, origin := stored + buf[i..k], origin + seq(k - i, _ => c);
      if k == |buf| {
        user, fate := WakeAll(user, true)[p := Away], Returned;
      } else if !readopen || p in killed {
        user, fate := user[p := Away], GaveUp;
      } else {
        user, fate := WakeAll(user, true)[p := Writing(c, buf, k, true)], Going;
      }
      writes := writes[c := writes[c].(fate := fate)];
      assert s.writes[c := s.writes[c]] == s.writes;
    }

    /** piperead(), likewise: None if it sleeps. */
    method PipeRead(p: nat, n: nat) returns (r: Option<ReadCall>)
      requires Fifo(View()) && p < |user|
      modifies this, ring
      ensures View() == ReadRegion(old(View()), p, n)
      ensures fetches == if r.Some? then old(fetches) + [r.value] else old(fetches)
    {
      hide Queue, Count, DropAll;
      if ring.nread == ring.nwrite && writeopen {
        if p in killed {
          user, r := user[p := Away], Some(ReadCall(p, n, None));
          fetches := fetches + [ReadCall(p, n, None)];
        } else {
          user, r := user[p := Reading(n, true)], None;
        }
        return;
      }
      ghost var q := Queue(ring.Val());
      var got := ring.Read(n);
      assert got == q[..|got|];
      user, r := WakeAll(user, false)[p := Away], Some(ReadCall(p, n, Some(got)));
      delivered, fetches := delivered + got, fetches + [ReadCall(p, n, Some(got))];
    }
  }
}
