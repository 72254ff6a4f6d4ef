/** What the shell's parser stops with (sh.c): each of its messages means that the tokens go wrong in one
    particular way at one particular place. */
module ShellErrors {

  import opened Options
  import opened ShellGrammar

  /** Words and redirections end at `p`, where they began at `q`. */
  ghost predicate ItemsUpTo<W>(ts: seq<Tok<W>>, q: nat, p: nat, items: seq<Item<W>>) {
    q <= p <= |ts| && ts[q..p] == ItemsToks(items)
  }

  /** Before `p` a redirection sign wants a file; at `p` there is none. */
  ghost predicate WantsFile<W>(ts: seq<Tok<W>>, p: nat) {
    0 < p <= |ts| && IsRedir(ts[p - 1]) && (p == |ts| || !ts[p].Word?)
  }

  /** At `p` there is the tenth word of a command. */
  ghost predicate TenthWord<W(!new)>(ts: seq<Tok<W>>, p: nat) {
    p < |ts| && ts[p].Word? && exists q: nat, items: seq<Item<W>> :: ItemsUpTo(ts, q, p, items) && |Args(items)| == MAXARGS - 1
  }

  /** At `p` a parenthesis opens among the words of a command. */
  ghost predicate OpenAmongWords<W(!new)>(ts: seq<Tok<W>>, p: nat) {
    p < |ts| && ts[p].Open? && exists q: nat, items: seq<Item<W>> :: ItemsUpTo(ts, q, p, items) && items != []
  }

  /** At `q` a block opens whose line ends at `p`, where it is not closed. */
  ghost predicate EndsShort<W>(ts: seq<Tok<W>>, q: nat, p: nat, l: Line<W>) {
    && q < p <= |ts| && ts[q].Open? && LegalLine(l) && ts[q + 1..p] == LineToks(l)
    && (p < |ts| ==> !ts[p].Amp? && !ts[p].Semi? && !ts[p].Close?)
  }

  /** A block opens and its line ends at `p` without the parenthesis that should close it. */
  ghost predicate NoClose<W(!new)>(ts: seq<Tok<W>>, p: nat) {
    exists q: nat, l: Line<W> :: EndsShort(ts, q, p, l)
  }

  /** The whole line ends at `p` and there is more. */
  ghost predicate TooMuch<W(!new)>(ts: seq<Tok<W>>, p: nat) {
    p < |ts| && exists l: Line<W> :: LegalLine(l) && ts[..p] == LineToks(l) && !ts[p].Amp? && !ts[p].Semi?
  }

  ghost predicate Wrong<W(!new)>(e: Error, ts: seq<Tok<W>>, p: nat) {
    match e
    case MissingFile => WantsFile(ts, p)
    case TooManyArgs => TenthWord(ts, p)
    case Syntax => OpenAmongWords(ts, p)
    case MissingParen => NoClose(ts, p)
    case Leftovers => TooMuch(ts, p)
  }

  // ---------------------------------------------------------------- in a part, in the whole

  /** What is wrong after the first `k` tokens is wrong in all of them. */
  lemma {:induction false} WrongIn<W(!new)>(e: Error, ts: seq<Tok<W>>, k: nat, p: nat)
    requires k <= |ts| && Wrong(e, ts[k..], p) && e != Leftovers
    ensures Wrong(e, ts, k + p)
  {
    hide ItemsToks, LineToks, LegalLine, Args;
    var us := ts[k..];
    match e {
      case MissingFile =>
      case TooManyArgs =>
        var q: nat, items: seq<Item<W>> :| ItemsUpTo(us, q, p, items) && |Args(items)| == MAXARGS - 1;
        assert ts[k + q..k + p] == us[q..p];
        assert ItemsUpTo(ts, k + q, k + p, items);
      case Syntax =>
        var q: nat, items: seq<Item<W>> :| ItemsUpTo(us, q, p, items) && items != [];
        assert ts[k + q..k + p] == us[q..p];
        assert ItemsUpTo(ts, k + q, k + p, items);
      case MissingParen =>
        var q: nat, l: Line<W> :| EndsShort(us, q, p, l);
        assert ts[k + q + 1..k + p] == us[q + 1..p];
        assert EndsShort(ts, k + q, k + p, l);
    }
  }

  // ---------------------------------------------------------------- redirections and words

  lemma {:induction false} RedirsWrong<W(!new)>(c: Cmd<W>, ts: seq<Tok<W>>) returns (p: nat)
    requires ParseRedirs(c, ts).Err?
    ensures ParseRedirs(c, ts).error == MissingFile && Wrong(MissingFile, ts, p)
    decreases |ts|
  {
    if |ts| < 2 || !ts[1].Word? {
      p := 1;
    } else {
      p := RedirsWrong(Redirect(c, ts[0], ts[1].w), ts[2..]);
      WrongIn(MissingFile, ts, 2, p);
      p := 2 + p;
    }
  }

  /** `pre` has been read since `q`, and the words in it counted. */
  ghost predicate Reading<W>(all: seq<Tok<W>>, q: nat, at: nat, pre: seq<Item<W>>, argc: nat) {
    ItemsUpTo(all, q, at, pre) && argc == |Args(pre)| < MAXARGS
  }

  lemma {:induction false} ArgsWrong<W(!new)>(ret: Cmd<W>, argc: nat, all: seq<Tok<W>>, q: nat, at: nat, pre: seq<Item<W>>) returns (p: nat)
    requires Reading(all, q, at, pre, argc) && ParseArgs(ret, argc, all[at..]).Err?
    requires !(at < |all| && IsRedir(all[at]))
    requires at < |all| && all[at].Open? ==> pre != []
    ensures Wrong(ParseArgs(ret, argc, all[at..]).error, all, p)
    decreases |all| - at, 0
  {
    hide ItemsToks, Args, ParseRedirs, Redirect, AddArg;
    var ts := all[at..];
    if !ts[0].Word? {
      p := at;
      assert ItemsUpTo(all, q, at, pre) && pre != [];
    } else if argc + 1 >= MAXARGS {
      p := at;
      assert ItemsUpTo(all, q, at, pre) && |Args(pre)| == MAXARGS - 1;
    } else {
      OneMore(all, q, at, pre, argc);
      assert ts[1..] == all[at + 1..];
      p := ItemsWrong(AddArg(ret, ts[0].w), argc + 1, all, q, at + 1, pre + [Arg(ts[0].w)]);
    }
  }

  lemma {:induction false} OneMore<W>(all: seq<Tok<W>>, q: nat, at: nat, pre: seq<Item<W>>, argc: nat)
    requires Reading(all, q, at, pre, argc) && at < |all| && all[at].Word? && argc + 1 < MAXARGS
    ensures Reading(all, q, at + 1, pre + [Arg(all[at].w)], argc + 1)
  {
    var one := [Arg(all[at].w)];
    ToksAppend(pre, one);
    ArgsAppend(pre, one);
    assert one[1..] == [];
    assert ItemsToks(one) == [all[at]];
    assert Args(one) == [all[at].w];
    hide ItemsToks, Args;
    assert all[q..at + 1] == all[q..at] + [all[at]];
  }

  lemma {:induction false} ItemsWrong<W(!new)>(ret: Cmd<W>, argc: nat, all: seq<Tok<W>>, q: nat, at: nat, pre: seq<Item<W>>) returns (p: nat)
    requires Reading(all, q, at, pre, argc) && ParseItems(ret, argc, all[at..]).Err?
    requires at < |all| && all[at].Open? ==> pre != []
    ensures Wrong(ParseItems(ret, argc, all[at..]).error, all, p)
    decreases |all| - at, 1
  {
    hide ItemsToks, Args, ParseArgs, Redirect, AddArg, Wrong;
    var ts := all[at..];
    var first := ParseRedirs(ret, ts);
    if first.Err? {
      p := RedirsWrong(ret, ts);
      WrongIn(MissingFile, all, at, p);
      p := at + p;
    } else {
      var rs := RedirsSound(ret, ts);
      var more := RedirItems(ret, rs);
      var next := |all| - |first.rest|;
      assert all[at..next] == ItemsToks(more) && all[next..] == first.rest;
      MoreRedirs(all, q, at, pre, argc, more, next);
      RedirsEnd(ret, ts);
      p := ArgsWrong(first.cmd, argc, all, q, next, pre + more);
    }
  }

  lemma {:induction false} RedirsEnd<W>(c: Cmd<W>, ts: seq<Tok<W>>)
    requires ParseRedirs(c, ts).Ok?
    ensures var rest := ParseRedirs(c, ts).rest; rest == [] || !IsRedir(rest[0])
    decreases |ts|
  {
    if ts != [] && IsRedir(ts[0]) {
      RedirsEnd(Redirect(c, ts[0], ts[1].w), ts[2..]);
    }
  }

  /** Redirections after what has been read. */
  lemma {:induction false} MoreRedirs<W>(all: seq<Tok<W>>, q: nat, at: nat, pre: seq<Item<W>>, argc: nat, more: seq<Item<W>>, next: nat)
    requires Reading(all, q, at, pre, argc) && at <= next <= |all| && all[at..next] == ItemsToks(more) && Args(more) == []
    ensures Reading(all, q, next, pre + more, argc)
  {
    ToksAppend(pre, more);
    ArgsAppend(pre, more);
    hide ItemsToks, Args;
    assert all[q..next] == all[q..at] + all[at..next];
  }

  // ---------------------------------------------------------------- where the parts of a line end

  lemma {:induction false} AmpsEnd<W>(c: Cmd<W>, ts: seq<Tok<W>>)
    ensures var rest := ParseAmps(c, ts).1; rest == [] || !rest[0].Amp?
    ensures ts == [] || !ts[0].Amp? ==> ParseAmps(c, ts) == (c, ts)
    ensures var rest := ParseAmps(c, ts).1; ts[|ts| - |rest|..] == rest
    decreases |ts|
  {
    if ts != [] && ts[0].Amp? {
      AmpsEnd(Back(c), ts[1..]);
    }
  }

  lemma {:induction false} LineEnd<W>(ts: seq<Tok<W>>)
    requires ParseLine(ts).Ok?
    ensures var rest := ParseLine(ts).rest; rest == [] || (!rest[0].Amp? && !rest[0].Semi?)
    decreases |ts|
  {
    hide ParsePipe, ParseAmps;
    var first := ParsePipe(ts);
    AmpsEnd(first.cmd, first.rest);
    var a := ParseAmps(first.cmd, first.rest);
    if a.1 != [] && a.1[0].Semi? {
      LineEnd(a.1[1..]);
    }
  }

  // ---------------------------------------------------------------- the parser

  lemma {:induction false} BlockWrong<W(!new)>(ts: seq<Tok<W>>) returns (p: nat)
    requires ts != [] && ts[0].Open? && ParseBlock(ts).Err?
    ensures ParseBlock(ts).error != Leftovers && Wrong(ParseBlock(ts).error, ts, p)
    decreases |ts|, 0
  {
    hide ParseLine, ParseRedirs, Wrong;
    var inner := ParseLine(ts[1..]);
    if inner.Err? {
      p := LineWrong(ts[1..]);
      WrongIn(inner.error, ts, 1, p);
      p := 1 + p;
    } else if inner.rest == [] || !inner.rest[0].Close? {
      p := NotClosed(ts);
    } else {
      p := RedirsWrong(inner.cmd, inner.rest[1..]);
      var l := LineSound(ts[1..]);
      var k := |ts| - |inner.rest| + 1;
      assert ts[k..] == inner.rest[1..];
      WrongIn(MissingFile, ts, k, p);
      p := k + p;
    }
  }

  lemma {:induction false} NotClosed<W(!new)>(ts: seq<Tok<W>>) returns (p: nat)
    requires ts != [] && ts[0].Open? && ParseLine(ts[1..]).Ok?
    requires var rest := ParseLine(ts[1..]).rest; rest == [] || !rest[0].Close?
    ensures Wrong(MissingParen, ts, p)
  {
    hide ParseLine, LegalLine, LineToks;
    var l := LineSound(ts[1..]);
    LineEnd(ts[1..]);
    p := |ts| - |ParseLine(ts[1..]).rest|;
    assert ts[1..p] == LineToks(l);
    assert EndsShort(ts, 0, p, l);
  }

  lemma {:induction false} ExecWrong<W(!new)>(ts: seq<Tok<W>>) returns (p: nat)
    requires ParseExec(ts).Err?
    ensures ParseExec(ts).error != Leftovers && Wrong(ParseExec(ts).error, ts, p)
    decreases |ts|, 1
  {
    hide ParseBlock, ParseItems, Wrong;
    if ts != [] && ts[0].Open? {
      p := BlockWrong(ts);
    } else {
      assert ts[0..] == ts;
      assert Reading(ts, 0, 0, [], 0);
      p := ItemsWrong<W>(Exec([]), 0, ts, 0, 0, []);
      ItemsError<W>(Exec([]), 0, ts);
    }
  }

  lemma {:induction false} ItemsError<W>(ret: Cmd<W>, argc: nat, ts: seq<Tok<W>>)
    ensures ParseItems(ret, argc, ts).Err? ==> ParseItems(ret, argc, ts).error != Leftovers
    decreases |ts|
  {
    hide AddArg;
    RedirsError(ret, ts);
    var first := ParseRedirs(ret, ts);
    if first.Ok? && first.rest != [] && first.rest[0].Word? && argc + 1 < MAXARGS {
      ItemsError(AddArg(first.cmd, first.rest[0].w), argc + 1, first.rest[1..]);
    }
  }

  lemma {:induction false} RedirsError<W>(c: Cmd<W>, ts: seq<Tok<W>>)
    ensures ParseRedirs(c, ts).Err? ==> ParseRedirs(c, ts).error != Leftovers
    decreases |ts|
  {
    if |ts| >= 2 && IsRedir(ts[0]) && ts[1].Word? {
      RedirsError(Redirect(c, ts[0], ts[1].w), ts[2..]);
    }
  }

  lemma {:induction false} PipeWrong<W(!new)>(ts: seq<Tok<W>>) returns (p: nat)
    requires ParsePipe(ts).Err?
    ensures ParsePipe(ts).error != Leftovers && Wrong(ParsePipe(ts).error, ts, p)
    decreases |ts|, 2
  {
    hide ParseExec, Wrong, CommandToks, CommandTree, LegalCommand;
    var first := ParseExec(ts);
    if first.Err? {
      p := ExecWrong(ts);
    } else {
      p := PipeWrong(first.rest[1..]);
      var c := CommandSound(ts);
      var k := |ts| - |first.rest| + 1;
      assert ts[k..] == first.rest[1..];
      WrongIn(ParsePipe(first.rest[1..]).error, ts, k, p);
      p := k + p;
    }
  }

  lemma {:induction false} LineWrong<W(!new)>(ts: seq<Tok<W>>) returns (p: nat)
    requires ParseLine(ts).Err?
    ensures ParseLine(ts).error != Leftovers && Wrong(ParseLine(ts).error, ts, p)
    decreases |ts|, 3
  {
    hide ParsePipe, ParseAmps, Wrong, PipeToks, PipeTree, LegalPipe;
    var first := ParsePipe(ts);
    if first.Err? {
      p := PipeWrong(ts);
    } else {
      var a := ParseAmps(first.cmd, first.rest);
      AmpsEnd(first.cmd, first.rest);
      p := LineWrong(a.1[1..]);
      var c := PipeSound(ts);
      var k := |ts| - |a.1| + 1;
      assert ts[|ts| - |first.rest|..] == first.rest;
      assert ts[k..] == a.1[1..];
      WrongIn(ParseLine(a.1[1..]).error, ts, k, p);
      p := k + p;
    }
  }

  /** Whenever the parser stops, its message says what is wrong: the tokens go wrong in that way, at some place. */
  lemma {:induction false} MessageMeans<W(!new)>(ts: seq<Tok<W>>) returns (p: nat)
    requires Parse(ts).Err?
    ensures Wrong(Parse(ts).error, ts, p)
  {
    hide ParseLine, LegalLine, LineToks;
    var r := ParseLine(ts);
    if r.Err? {
      p := LineWrong(ts);
    } else {
      var l := LineSound(ts);
      LineEnd(ts);
      p := |ts| - |r.rest|;
      assert ts[..p] == LineToks(l) && ts[p..] == r.rest;
    }
  }
}
