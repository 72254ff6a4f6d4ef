/** The grammar of sh.c on sequences of tokens: a recursive-descent parser with the branches of
    parseline(), parsepipe(), parseexec(), parseblock() and parseredirs(), and a proof that it
    accepts exactly the sentences of a declarative grammar, with exactly their trees.

    Words are kept abstract, so that the same parser serves pieces of a buffer and strings. */
module ShellGrammar {

  import opened Options

  const MAXARGS := 10
  const O_RDONLY := 0
  const O_WRONLY := 1
  const O_CREATE := 0x200

  datatype Tok<W> = Word(w: W) | Bar | Open | Close | Semi | Amp | Less | Great | Append

  datatype Cmd<W> =
    | Exec(argv: seq<W>)
    | Redir(cmd: Cmd<W>, file: W, mode: nat, fd: nat)
    | Pipe(left: Cmd<W>, right: Cmd<W>)
    | List(left: Cmd<W>, right: Cmd<W>)
    | Back(cmd: Cmd<W>)

  /** The messages sh.c stops with. */
  datatype Error = MissingFile | MissingParen | TooManyArgs | Syntax | Leftovers

  datatype Result<W> = Ok(cmd: Cmd<W>, rest: seq<Tok<W>>) | Err(error: Error)

  predicate IsRedir<W>(t: Tok<W>) {
    t.Less? || t.Great? || t.Append?
  }

  /** The tokens that end a simple command. */
  predicate EndsArgs<W>(t: Tok<W>) {
    t.Bar? || t.Close? || t.Amp? || t.Semi?
  }

  /** What a redirection makes of a command; `>>` is treated like `>`. */
  function Redirect<W>(c: Cmd<W>, t: Tok<W>, file: W): (r: Cmd<W>) {
    if t.Less? then Redir(c, file, O_RDONLY, 0) else Redir(c, file, O_WRONLY + O_CREATE, 1)
  }

  /** Appending to argv: the executable command lies beneath the redirections wrapped around it. */
  function AddArg<W>(c: Cmd<W>, w: W): (r: Cmd<W>) {
    match c
    case Exec(argv) => Exec(argv + [w])
    case Redir(d, file, mode, fd) => Redir(AddArg(d, w), file, mode, fd)
    case _ => c
  }

  // ---------------------------------------------------------------- parser

  function ParseRedirs<W>(c: Cmd<W>, ts: seq<Tok<W>>): (r: Result<W>)
    ensures r.Ok? ==> |r.rest| <= |ts|
    ensures r.Ok? && ts != [] && IsRedir(ts[0]) ==> |r.rest| < |ts|
    decreases |ts|
  {
    if ts == [] || !IsRedir(ts[0]) then Ok(c, ts)
    else if |ts| < 2 || !ts[1].Word? then Err(MissingFile)
    else ParseRedirs(Redirect(c, ts[0], ts[1].w), ts[2..])
  }

  function ParseArgs<W>(ret: Cmd<W>, argc: nat, ts: seq<Tok<W>>): (r: Result<W>)
    ensures r.Ok? ==> |r.rest| <= |ts|
    decreases |ts|, 0
  {
    if ts == [] || EndsArgs(ts[0]) then Ok(ret, ts)
    else if !ts[0].Word? then Err(Syntax)
    else if argc + 1 >= MAXARGS then Err(TooManyArgs)
    else ParseItems(AddArg(ret, ts[0].w), argc + 1, ts[1..])
  }

  /** Redirections, then the words and redirections after them. */
  function ParseItems<W>(ret: Cmd<W>, argc: nat, ts: seq<Tok<W>>): (r: Result<W>)
    ensures r.Ok? ==> |r.rest| <= |ts|
    decreases |ts|, 1
  {
    match ParseRedirs(ret, ts)
    case Err(e) => Err(e)
    case Ok(c, rest) => ParseArgs(c, argc, rest)
  }

  function ParseBlock<W>(ts: seq<Tok<W>>): (r: Result<W>)
    requires ts != [] && ts[0].Open?
    ensures r.Ok? ==> |r.rest| <= |ts|
    decreases |ts|, 0
  {
    match ParseLine(ts[1..])
    case Err(e) => Err(e)
    case Ok(c, rest) =>
      if rest == [] || !rest[0].Close? then Err(MissingParen)
      else ParseRedirs(c, rest[1..])
  }

  function ParseExec<W>(ts: seq<Tok<W>>): (r: Result<W>)
    ensures r.Ok? ==> |r.rest| <= |ts|
    decreases |ts|, 1
  {
    if ts != [] && ts[0].Open? then ParseBlock(ts) else ParseItems(Exec([]), 0, ts)
  }

  function ParsePipe<W>(ts: seq<Tok<W>>): (r: Result<W>)
    ensures r.Ok? ==> |r.rest| <= |ts|
    decreases |ts|, 2
  {
    match ParseExec(ts)
    case Err(e) => Err(e)
    case Ok(c, rest) =>
      if rest == [] || !rest[0].Bar? then Ok(c, rest)
      else
        match ParsePipe(rest[1..])
        case Err(e) => Err(e)
        case Ok(d, tail) => Ok(Pipe(c, d), tail)
  }

  /** Every `&` puts what was read so far in the background. */
  function ParseAmps<W>(c: Cmd<W>, ts: seq<Tok<W>>): (r: (Cmd<W>, seq<Tok<W>>))
    ensures |r.1| <= |ts|
    decreases |ts|
  {
    if ts == [] || !ts[0].Amp? then (c, ts) else ParseAmps(Back(c), ts[1..])
  }

  function ParseLine<W>(ts: seq<Tok<W>>): (r: Result<W>)
    ensures r.Ok? ==> |r.rest| <= |ts|
    decreases |ts|, 3
  {
    match ParsePipe(ts)
    case Err(e) => Err(e)
    case Ok(c, rest) =>
      var a := ParseAmps(c, rest);
      if a.1 == [] || !a.1[0].Semi? then Ok(a.0, a.1)
      else
        match ParseLine(a.1[1..])
        case Err(e) => Err(e)
        case Ok(d, tail) => Ok(List(a.0, d), tail)
  }

  /** parsecmd(): a line and nothing after it. */
  function Parse<W>(ts: seq<Tok<W>>): (r: Result<W>) {
    match ParseLine(ts)
    case Err(e) => Err(e)
    case Ok(c, rest) => if rest == [] then Ok(c, []) else Err(Leftovers)
  }

  // ---------------------------------------------------------------- grammar

  datatype Dir = In | Out | More

  datatype Redirection<W> = Redirection(dir: Dir, file: W)

  datatype Item<W> = Arg(w: W) | Red(r: Redirection<W>)

  /** Derivations: a line is a pipeline, any number of `&`, and possibly `;` and another line; a
      pipeline is commands separated by `|`; a command is a line in parentheses with redirections
      after it, or words and redirections in any order. */
  datatype Line<W> = Line(pipe: Pipeline<W>, amps: nat, next: Option<Line<W>>)
  datatype Pipeline<W> = Pipeline(first: Command<W>, next: Option<Pipeline<W>>)
  datatype Command<W> = Simple(items: seq<Item<W>>) | Block(body: Line<W>, redirs: seq<Redirection<W>>)

  function DirTok<W>(d: Dir): (t: Tok<W>) {
    match d
    case In => Less
    case Out => Great
    case More => Append
  }

  function RedToks<W>(r: Redirection<W>): (ts: seq<Tok<W>>) {
    [DirTok(r.dir), Word(r.file)]
  }

  function RedsToks<W>(rs: seq<Redirection<W>>): (ts: seq<Tok<W>>) {
    if rs == [] then [] else RedToks(rs[0]) + RedsToks(rs[1..])
  }

  function ItemToks<W>(it: Item<W>): (ts: seq<Tok<W>>) {
    match it
    case Arg(w) => [Word(w)]
    case Red(r) => RedToks(r)
  }

  function ItemsToks<W>(items: seq<Item<W>>): (ts: seq<Tok<W>>) {
    if items == [] then [] else ItemToks(items[0]) + ItemsToks(items[1..])
  }

  function Amps<W>(n: nat): (ts: seq<Tok<W>>) {
    if n == 0 then [] else [Amp] + Amps(n - 1)
  }

  /** The sentence a derivation stands for. */
  function LineToks<W>(l: Line<W>): (ts: seq<Tok<W>>) {
    PipeToks(l.pipe) + Amps(l.amps)
    + match l.next { case None => [] case Some(m) => [Semi] + LineToks(m) }
  }

  function PipeToks<W>(p: Pipeline<W>): (ts: seq<Tok<W>>) {
    CommandToks(p.first) + match p.next { case None => [] case Some(q) => [Bar] + PipeToks(q) }
  }

  function CommandToks<W>(c: Command<W>): (ts: seq<Tok<W>>) {
    match c
    case Simple(items) => ItemsToks(items)
    case Block(body, redirs) => [Open] + LineToks(body) + [Close] + RedsToks(redirs)
  }

  /** `<` opens the file for reading as descriptor 0; `>` and `>>` both open or create it for writing as 1. */
  function Apply<W>(c: Cmd<W>, r: Redirection<W>): (d: Cmd<W>) {
    match r.dir
    case In => Redir(c, r.file, O_RDONLY, 0)
    case Out => Redir(c, r.file, O_WRONLY + O_CREATE, 1)
    case More => Redir(c, r.file, O_WRONLY + O_CREATE, 1)
  }

  /** The first redirection is the innermost. */
  function Wrap<W>(c: Cmd<W>, rs: seq<Redirection<W>>): (d: Cmd<W>)
    decreases |rs|
  {
    if rs == [] then c else Wrap(Apply(c, rs[0]), rs[1..])
  }

  function Args<W>(items: seq<Item<W>>): (ws: seq<W>) {
    if items == [] then []
    else
      match items[0]
      case Arg(w) => [w] + Args(items[1..])
      case Red(_) => Args(items[1..])
  }

  function Reds<W>(items: seq<Item<W>>): (rs: seq<Redirection<W>>) {
    if items == [] then []
    else
      match items[0]
      case Arg(_) => Reds(items[1..])
      case Red(r) => [r] + Reds(items[1..])
  }

  function Backs<W>(c: Cmd<W>, n: nat): (d: Cmd<W>)
    decreases n
  {
    if n == 0 then c else Backs(Back(c), n - 1)
  }

  /** The command a derivation stands for: `|` and `;` group to the right, `&` applies to the
      pipeline before it, parentheses leave no trace. */
  function LineTree<W>(l: Line<W>): (c: Cmd<W>) {
    var c := Backs(PipeTree(l.pipe), l.amps);
    match l.next
    case None => c
    case Some(m) => List(c, LineTree(m))
  }

  function PipeTree<W>(p: Pipeline<W>): (c: Cmd<W>) {
    match p.next
    case None => CommandTree(p.first)
    case Some(q) => Pipe(CommandTree(p.first), PipeTree(q))
  }

  function CommandTree<W>(c: Command<W>): (d: Cmd<W>) {
    match c
    case Simple(items) => Wrap(Exec(Args(items)), Reds(items))
    case Block(body, redirs) => Wrap(LineTree(body), redirs)
  }

  /** No simple command has too many words. */
  predicate LegalLine<W>(l: Line<W>) {
    LegalPipe(l.pipe) && match l.next { case None => true case Some(m) => LegalLine(m) }
  }

  predicate LegalPipe<W>(p: Pipeline<W>) {
    LegalCommand(p.first) && match p.next { case None => true case Some(q) => LegalPipe(q) }
  }

  predicate LegalCommand<W>(c: Command<W>) {
    match c
    case Simple(items) => |Args(items)| < MAXARGS
    case Block(body, _) => LegalLine(body)
  }

  // ---------------------------------------------------------------- simple commands

  /** Items taken in the order they are read. */
  function Build<W>(ret: Cmd<W>, items: seq<Item<W>>): (c: Cmd<W>)
    decreases |items|
  {
    if items == [] then ret
    else
      match items[0]
      case Arg(w) => Build(AddArg(ret, w), items[1..])
      case Red(r) => Build(Apply(ret, r), items[1..])
  }

  lemma {:induction false} WrapLast<W>(c: Cmd<W>, rs: seq<Redirection<W>>, r: Redirection<W>)
    ensures Wrap(c, rs + [r]) == Apply(Wrap(c, rs), r)
    decreases |rs|
  {
    var all := rs + [r];
    if rs == [] {
      assert all[1..] == [];
    } else {
      assert all[1..] == rs[1..] + [r];
      WrapLast(Apply(c, rs[0]), rs[1..], r);
    }
  }

  lemma {:induction false} WrapAdd<W>(c: Cmd<W>, rs: seq<Redirection<W>>, w: W)
    ensures AddArg(Wrap(c, rs), w) == Wrap(AddArg(c, w), rs)
    decreases |rs|
  {
    if rs != [] {
      WrapAdd(Apply(c, rs[0]), rs[1..], w);
    }
  }

  /** Words and redirections can be mixed freely: only the order of each kind matters. */
  lemma {:induction false} BuildIsWrap<W>(argv: seq<W>, rs: seq<Redirection<W>>, items: seq<Item<W>>)
    ensures Build(Wrap(Exec(argv), rs), items) == Wrap(Exec(argv + Args(items)), rs + Reds(items))
    decreases |items|
  {
    hide Wrap, Apply;
    if items == [] {
      assert argv + [] == argv && rs + [] == rs;
    } else {
      match items[0] {
        case Arg(w) =>
          WrapAdd(Exec(argv), rs, w);
          BuildIsWrap(argv + [w], rs, items[1..]);
          assert argv + [w] + Args(items[1..]) == argv + Args(items);
        case Red(r) =>
          WrapLast(Exec(argv), rs, r);
          BuildIsWrap(argv, rs + [r], items[1..]);
          assert rs + [r] + Reds(items[1..]) == rs + Reds(items);
      }
    }
  }

  // ---------------------------------------------------------------- completeness

  predicate Follows<W>(rest: seq<Tok<W>>, bar: bool, amp: bool) {
    rest == [] || rest[0].Close? || (bar && rest[0].Bar?) || (amp && (rest[0].Amp? || rest[0].Semi?))
  }

  lemma {:induction false} RedirsComplete<W>(c: Cmd<W>, rs: seq<Redirection<W>>, rest: seq<Tok<W>>)
    requires rest == [] || !IsRedir(rest[0])
    ensures ParseRedirs(c, RedsToks(rs) + rest) == Ok(Wrap(c, rs), rest)
    decreases |rs|
  {
    if rs == [] {
      assert RedsToks(rs) + rest == rest;
    } else {
      var ts := RedsToks(rs) + rest;
      assert ts[2..] == RedsToks(rs[1..]) + rest;
      RedirsComplete(Apply(c, rs[0]), rs[1..], rest);
    }
  }

  lemma {:induction false} ItemsArg<W>(ret: Cmd<W>, argc: nat, w: W, ts: seq<Tok<W>>)
    requires argc + 1 < MAXARGS
    ensures ParseItems(ret, argc, [Word(w)] + ts) == ParseItems(AddArg(ret, w), argc + 1, ts)
  {
    var all := [Word(w)] + ts;
    assert all[1..] == ts && all[0] == Word(w);
    assert ParseRedirs(ret, all) == Ok(ret, all);
    assert ParseItems(ret, argc, all) == ParseArgs(ret, argc, all);
  }

  lemma {:induction false} ItemsRed<W>(ret: Cmd<W>, argc: nat, r: Redirection<W>, ts: seq<Tok<W>>)
    ensures ParseItems(ret, argc, RedToks(r) + ts) == ParseItems(Apply(ret, r), argc, ts)
  {
    var all := RedToks(r) + ts;
    assert all[2..] == ts && all[0] == DirTok(r.dir) && all[1] == Word(r.file);
    assert ParseRedirs(ret, all) == ParseRedirs(Apply(ret, r), ts);
    hide ParseRedirs, ParseArgs;
  }

  lemma {:induction false} ItemsComplete<W>(ret: Cmd<W>, argc: nat, items: seq<Item<W>>, rest: seq<Tok<W>>)
    requires rest == [] || EndsArgs(rest[0])
    requires argc + |Args(items)| < MAXARGS
    ensures ParseItems(ret, argc, ItemsToks(items) + rest) == Ok(Build(ret, items), rest)
    decreases |items|
  {
    if items == [] {
      assert ItemsToks(items) + rest == rest;
    } else {
      hide ParseItems;
      var ts := ItemsToks(items[1..]) + rest;
      assert ItemsToks(items) + rest == ItemToks(items[0]) + ts;
      match items[0] {
        case Arg(w) =>
          ItemsArg(ret, argc, w, ts);
          ItemsComplete(AddArg(ret, w), argc + 1, items[1..], rest);
        case Red(r) =>
          ItemsRed(ret, argc, r, ts);
          ItemsComplete(Apply(ret, r), argc, items[1..], rest);
      }
    }
  }

  lemma {:induction false} SimpleNotOpen<W>(items: seq<Item<W>>, rest: seq<Tok<W>>)
    requires rest == [] || EndsArgs(rest[0])
    ensures var ts := ItemsToks(items) + rest; ts == [] || !ts[0].Open?
  {
    if items != [] {
      assert (ItemsToks(items) + rest)[0] == ItemToks(items[0])[0];
    }
  }

  lemma {:induction false} CommandComplete<W>(c: Command<W>, rest: seq<Tok<W>>)
    requires LegalCommand(c) && Follows(rest, true, true)
    ensures ParseExec(CommandToks(c) + rest) == Ok(CommandTree(c), rest)
    decreases c, 0
  {
    hide ParseItems, ParseRedirs, ParsePipe, ParseLine, RedsToks, LineToks, ItemsToks, Wrap, Build;
    match c {
      case Simple(items) =>
        SimpleNotOpen(items, rest);
        ItemsComplete(Exec([]), 0, items, rest);
        BuildIsWrap<W>([], [], items);
        WrapNone<W>(Exec([]));
        assert [] + Args(items) == Args(items) && [] + Reds(items) == Reds(items);
      case Block(body, redirs) =>
        var ts := CommandToks(c) + rest;
        var after := [Close] + RedsToks(redirs) + rest;
        assert ts[1..] == LineToks(body) + after;
        LineComplete(body, after);
        assert after[1..] == RedsToks(redirs) + rest;
        RedirsComplete(LineTree(body), redirs, rest);
    }
  }

  lemma {:induction false} WrapNone<W>(c: Cmd<W>)
    ensures Wrap(c, []) == c
  {
  }

  lemma {:induction false} PipeComplete<W>(p: Pipeline<W>, rest: seq<Tok<W>>)
    requires LegalPipe(p) && Follows(rest, false, true)
    ensures ParsePipe(PipeToks(p) + rest) == Ok(PipeTree(p), rest)
    decreases p
  {
    hide ParseExec, CommandToks, CommandTree;
    match p.next {
      case None =>
        CommandComplete(p.first, rest);
        assert PipeToks(p) == CommandToks(p.first);
      case Some(q) =>
        var after := [Bar] + PipeToks(q) + rest;
        assert PipeToks(p) + rest == CommandToks(p.first) + after;
        CommandComplete(p.first, after);
        assert after[1..] == PipeToks(q) + rest;
        PipeComplete(q, rest);
    }
  }

  lemma {:induction false} AmpsComplete<W>(c: Cmd<W>, n: nat, rest: seq<Tok<W>>)
    requires rest == [] || !rest[0].Amp?
    ensures ParseAmps(c, Amps(n) + rest) == (Backs(c, n), rest)
    decreases n
  {
    if n == 0 {
      assert Amps(n) + rest == rest;
    } else {
      var ts := Amps(n) + rest;
      assert ts[1..] == Amps(n - 1) + rest;
      AmpsComplete(Back(c), n - 1, rest);
    }
  }

  lemma {:induction false} AmpsFollow<W>(n: nat, rest: seq<Tok<W>>)
    requires Follows(rest, false, true)
    ensures Follows(Amps(n) + rest, false, true)
  {
    if n == 0 {
      assert Amps(n) + rest == rest;
    }
  }

  lemma {:induction false} LineComplete<W>(l: Line<W>, rest: seq<Tok<W>>)
    requires LegalLine(l) && Follows(rest, false, false)
    ensures ParseLine(LineToks(l) + rest) == Ok(LineTree(l), rest)
    decreases l
  {
    hide ParsePipe, PipeToks, PipeTree, ParseAmps, Amps, Backs;
    var c := PipeTree(l.pipe);
    match l.next {
      case None =>
        assert LineToks(l) + rest == PipeToks(l.pipe) + (Amps(l.amps) + rest);
        AmpsFollow(l.amps, rest);
        PipeComplete(l.pipe, Amps(l.amps) + rest);
        AmpsComplete(c, l.amps, rest);
      case Some(m) =>
        var after := [Semi] + LineToks(m) + rest;
        assert LineToks(l) + rest == PipeToks(l.pipe) + (Amps(l.amps) + after);
        AmpsFollow(l.amps, after);
        PipeComplete(l.pipe, Amps(l.amps) + after);
        AmpsComplete(c, l.amps, after);
        assert after[1..] == LineToks(m) + rest;
        LineComplete(m, rest);
    }
  }

  // ---------------------------------------------------------------- soundness

  function DirOf<W>(t: Tok<W>): (d: Dir)
    requires IsRedir(t)
    ensures DirTok<W>(d) == t
  {
    if t.Less? then In else if t.Great? then Out else More
  }

  lemma {:induction false} RedirsSound<W>(c: Cmd<W>, ts: seq<Tok<W>>) returns (rs: seq<Redirection<W>>)
    requires ParseRedirs(c, ts).Ok?
    ensures ts == RedsToks(rs) + ParseRedirs(c, ts).rest
    ensures ParseRedirs(c, ts).cmd == Wrap(c, rs)
    decreases |ts|
  {
    if ts == [] || !IsRedir(ts[0]) {
      rs := [];
    } else {
      var r := Redirection(DirOf(ts[0]), ts[1].w);
      var tail := RedirsSound(Apply(c, r), ts[2..]);
      rs := [r] + tail;
      assert rs[1..] == tail;
      assert ts == RedToks(r) + ts[2..];
    }
  }

  /** The same, as the items of a simple command. */
  lemma {:induction false} RedirItems<W>(c: Cmd<W>, rs: seq<Redirection<W>>) returns (items: seq<Item<W>>)
    ensures ItemsToks(items) == RedsToks(rs) && Build(c, items) == Wrap(c, rs) && Args(items) == []
    decreases |rs|
  {
    if rs == [] {
      items := [];
    } else {
      var tail := RedirItems(Apply(c, rs[0]), rs[1..]);
      items := [Red(rs[0])] + tail;
      assert items[1..] == tail;
    }
  }

  lemma {:induction false} BuildAppend<W>(c: Cmd<W>, a: seq<Item<W>>, b: seq<Item<W>>)
    ensures Build(c, a + b) == Build(Build(c, a), b)
    decreases |a|
  {
    var all := a + b;
    if a == [] {
      assert all == b;
    } else {
      assert all[1..] == a[1..] + b;
      hide AddArg, Apply;
      match a[0] {
        case Arg(w) => BuildAppend(AddArg(c, w), a[1..], b);
        case Red(r) => BuildAppend(Apply(c, r), a[1..], b);
      }
    }
  }

  lemma {:induction false} ToksAppend<W>(a: seq<Item<W>>, b: seq<Item<W>>)
    ensures ItemsToks(a + b) == ItemsToks(a) + ItemsToks(b)
    decreases |a|
  {
    var all := a + b;
    if a == [] {
      assert all == b;
    } else {
      hide ItemToks;
      assert all[1..] == a[1..] + b;
      ToksAppend(a[1..], b);
    }
  }

  lemma {:induction false} ArgsAppend<W>(a: seq<Item<W>>, b: seq<Item<W>>)
    ensures Args(a + b) == Args(a) + Args(b)
    decreases |a|
  {
    var all := a + b;
    if a == [] {
      assert all == b;
    } else {
      assert all[1..] == a[1..] + b;
      ArgsAppend(a[1..], b);
    }
  }

  lemma {:induction false} ArgsSound<W>(ret: Cmd<W>, argc: nat, ts: seq<Tok<W>>) returns (items: seq<Item<W>>)
    requires ParseArgs(ret, argc, ts).Ok? && argc < MAXARGS
    ensures ts == ItemsToks(items) + ParseArgs(ret, argc, ts).rest
    ensures ParseArgs(ret, argc, ts).cmd == Build(ret, items)
    ensures argc + |Args(items)| < MAXARGS
    decreases |ts|, 0
  {
    hide ParseItems, AddArg, RedToks, Apply, Redirect;
    if ts == [] || EndsArgs(ts[0]) {
      items := [];
    } else {
      var tail := ItemsSound(AddArg(ret, ts[0].w), argc + 1, ts[1..]);
      items := [Arg(ts[0].w)] + tail;
      assert items[1..] == tail;
      assert ts == [ts[0]] + ts[1..];
    }
  }

  lemma {:induction false} ItemsSound<W>(ret: Cmd<W>, argc: nat, ts: seq<Tok<W>>) returns (items: seq<Item<W>>)
    requires ParseItems(ret, argc, ts).Ok? && argc < MAXARGS
    ensures ts == ItemsToks(items) + ParseItems(ret, argc, ts).rest
    ensures ParseItems(ret, argc, ts).cmd == Build(ret, items)
    ensures argc + |Args(items)| < MAXARGS
    decreases |ts|, 1
  {
    hide ParseRedirs, ParseArgs, ItemsToks, RedsToks, Build, Wrap, Args;
    var first := ParseRedirs(ret, ts);
    var rs := RedirsSound(ret, ts);
    var front := RedirItems(ret, rs);
    var back := ArgsSound(first.cmd, argc, first.rest);
    items := front + back;
    BuildAppend(ret, front, back);
    ToksAppend(front, back);
    ArgsAppend(front, back);
  }

  lemma {:induction false} CommandSound<W>(ts: seq<Tok<W>>) returns (c: Command<W>)
    requires ParseExec(ts).Ok?
    ensures LegalCommand(c)
    ensures ts == CommandToks(c) + ParseExec(ts).rest
    ensures ParseExec(ts).cmd == CommandTree(c)
    decreases |ts|, 1
  {
    hide ParseItems, ParseRedirs, ParsePipe, ParseLine, RedsToks, LineToks, ItemsToks, Wrap, Build;
    if ts != [] && ts[0].Open? {
      var inner := ParseLine(ts[1..]);
      var body := LineSound(ts[1..]);
      var rs := RedirsSound(inner.cmd, inner.rest[1..]);
      c := Block(body, rs);
      assert ts == [Open] + ts[1..];
      assert inner.rest == [Close] + inner.rest[1..];
    } else {
      var items := ItemsSound<W>(Exec([]), 0, ts);
      c := Simple(items);
      BuildIsWrap<W>([], [], items);
      WrapNone<W>(Exec([]));
      assert [] + Args(items) == Args(items) && [] + Reds(items) == Reds(items);
    }
  }

  lemma {:induction false} PipeSound<W>(ts: seq<Tok<W>>) returns (p: Pipeline<W>)
    requires ParsePipe(ts).Ok?
    ensures LegalPipe(p)
    ensures ts == PipeToks(p) + ParsePipe(ts).rest
    ensures ParsePipe(ts).cmd == PipeTree(p)
    decreases |ts|, 2
  {
    hide ParseExec, CommandToks, CommandTree;
    var first := ParseExec(ts);
    var c := CommandSound(ts);
    if first.rest == [] || !first.rest[0].Bar? {
      p := Pipeline(c, None);
    } else {
      var q := PipeSound(first.rest[1..]);
      p := Pipeline(c, Some(q));
      assert first.rest == [Bar] + first.rest[1..];
    }
  }

  lemma {:induction false} AmpsSound<W>(c: Cmd<W>, ts: seq<Tok<W>>) returns (n: nat)
    ensures ts == Amps(n) + ParseAmps(c, ts).1 && ParseAmps(c, ts).0 == Backs(c, n)
    decreases |ts|
  {
    if ts == [] || !ts[0].Amp? {
      n := 0;
    } else {
      var m := AmpsSound(Back(c), ts[1..]);
      n := m + 1;
      assert ts == [Amp] + ts[1..];
    }
  }

  lemma {:induction false} LineSound<W>(ts: seq<Tok<W>>) returns (l: Line<W>)
    requires ParseLine(ts).Ok?
    ensures LegalLine(l)
    ensures ts == LineToks(l) + ParseLine(ts).rest
    ensures ParseLine(ts).cmd == LineTree(l)
    decreases |ts|, 3
  {
    hide ParsePipe, PipeToks, PipeTree, ParseAmps, Amps, Backs;
    var first := ParsePipe(ts);
    var p := PipeSound(ts);
    var n := AmpsSound(first.cmd, first.rest);
    var after := ParseAmps(first.cmd, first.rest).1;
    if after == [] || !after[0].Semi? {
      l := Line(p, n, None);
    } else {
      var m := LineSound(after[1..]);
      l := Line(p, n, Some(m));
      assert after == [Semi] + after[1..];
    }
  }

  // ---------------------------------------------------------------- exactly the grammar

  /** `l` derives `ts` as the command `c`. */
  predicate Derives<W(==)>(l: Line<W>, ts: seq<Tok<W>>, c: Cmd<W>) {
    LegalLine(l) && LineToks(l) == ts && LineTree(l) == c
  }

  /** The parser accepts a token sequence exactly when the grammar derives it, and returns exactly
      the tree derived; in particular no sentence has two trees. */
  lemma {:induction false} ParsesExactly<W>(ts: seq<Tok<W>>, c: Cmd<W>)
    ensures Parse(ts) == Ok(c, []) <==> exists l :: Derives(l, ts, c)
  {
    hide ParseLine, LineToks, LineTree, LegalLine;
    if Parse(ts) == Ok(c, []) {
      var l := LineSound(ts);
      assert LineToks(l) + [] == LineToks(l);
      assert Derives(l, ts, c);
    }
    if exists l :: Derives(l, ts, c) {
      var l :| Derives(l, ts, c);
      LineComplete(l, []);
      assert LineToks(l) + [] == ts;
    }
  }
}
