/** The parser of sh.c does not look inside words: replacing every word commutes with parsing. */
module ShellWords {

  import opened ShellGrammar

  function MapTok<W, V>(f: W -> V, t: Tok<W>): (u: Tok<V>) {
    match t
    case Word(w) => Word(f(w))
    case Bar => Bar
    case Open => Open
    case Close => Close
    case Semi => Semi
    case Amp => Amp
    case Less => Less
    case Great => Great
    case Append => Append
  }

  function MapToks<W, V>(f: W -> V, ts: seq<Tok<W>>): (us: seq<Tok<V>>)
    ensures |us| == |ts| && forall i :: 0 <= i < |ts| ==> us[i] == MapTok(f, ts[i])
  {
    seq(|ts|, i requires 0 <= i < |ts| => MapTok(f, ts[i]))
  }

  function MapWords<W, V>(f: W -> V, ws: seq<W>): (vs: seq<V>)
    ensures |vs| == |ws| && forall i :: 0 <= i < |ws| ==> vs[i] == f(ws[i])
  {
    seq(|ws|, i requires 0 <= i < |ws| => f(ws[i]))
  }

  function MapCmd<W, V>(f: W -> V, c: Cmd<W>): (d: Cmd<V>) {
    match c
    case Exec(argv) => Exec(MapWords(f, argv))
    case Redir(e, file, mode, fd) => Redir(MapCmd(f, e), f(file), mode, fd)
    case Pipe(l, r) => Pipe(MapCmd(f, l), MapCmd(f, r))
    case List(l, r) => List(MapCmd(f, l), MapCmd(f, r))
    case Back(e) => Back(MapCmd(f, e))
  }

  function MapResult<W, V>(f: W -> V, r: Result<W>): (q: Result<V>) {
    match r
    case Ok(c, rest) => Ok(MapCmd(f, c), MapToks(f, rest))
    case Err(e) => Err(e)
  }

  lemma {:induction false} MapDrop<W, V>(f: W -> V, ts: seq<Tok<W>>, k: nat)
    requires k <= |ts|
    ensures MapToks(f, ts)[k..] == MapToks(f, ts[k..])
  {
  }

  lemma {:induction false} MapAdd<W, V>(f: W -> V, c: Cmd<W>, w: W)
    ensures MapCmd(f, AddArg(c, w)) == AddArg(MapCmd(f, c), f(w))
  {
    match c {
      case Exec(argv) =>
        assert MapWords(f, argv + [w]) == MapWords(f, argv) + [f(w)];
      case Redir(d, _, _, _) =>
        MapAdd(f, d, w);
      case _ =>
    }
  }

  lemma {:induction false} RedirsMap<W, V>(f: W -> V, c: Cmd<W>, ts: seq<Tok<W>>)
    ensures ParseRedirs(MapCmd(f, c), MapToks(f, ts)) == MapResult(f, ParseRedirs(c, ts))
    decreases |ts|
  {
    if ts != [] && IsRedir(ts[0]) && |ts| >= 2 && ts[1].Word? {
      MapDrop(f, ts, 2);
      RedirsMap(f, Redirect(c, ts[0], ts[1].w), ts[2..]);
    }
  }

  lemma {:induction false} ArgsMap<W, V>(f: W -> V, ret: Cmd<W>, argc: nat, ts: seq<Tok<W>>)
    ensures ParseArgs(MapCmd(f, ret), argc, MapToks(f, ts)) == MapResult(f, ParseArgs(ret, argc, ts))
    decreases |ts|, 0
  {
    hide ParseItems;
    if ts != [] && !EndsArgs(ts[0]) && ts[0].Word? && argc + 1 < MAXARGS {
      MapDrop(f, ts, 1);
      MapAdd(f, ret, ts[0].w);
      ItemsMap(f, AddArg(ret, ts[0].w), argc + 1, ts[1..]);
    }
  }

  lemma {:induction false} ItemsMap<W, V>(f: W -> V, ret: Cmd<W>, argc: nat, ts: seq<Tok<W>>)
    ensures ParseItems(MapCmd(f, ret), argc, MapToks(f, ts)) == MapResult(f, ParseItems(ret, argc, ts))
    decreases |ts|, 1
  {
    hide ParseRedirs, ParseArgs;
    RedirsMap(f, ret, ts);
    match ParseRedirs(ret, ts) {
      case Err(_) =>
      case Ok(c, rest) => ArgsMap(f, c, argc, rest);
    }
  }

  lemma {:induction false} ExecMap<W, V>(f: W -> V, ts: seq<Tok<W>>)
    ensures ParseExec(MapToks(f, ts)) == MapResult(f, ParseExec(ts))
    decreases |ts|, 1
  {
    hide ParseItems, ParseLine, ParseRedirs;
    if ts != [] && ts[0].Open? {
      MapDrop(f, ts, 1);
      LineMap(f, ts[1..]);
      match ParseLine(ts[1..]) {
        case Err(_) =>
        case Ok(c, rest) =>
          if rest != [] {
            MapDrop(f, rest, 1);
            RedirsMap(f, c, rest[1..]);
          }
      }
    } else {
      ItemsMap<W, V>(f, Exec([]), 0, ts);
      assert MapWords<W, V>(f, []) == [];
    }
  }

  lemma {:induction false} PipeMap<W, V>(f: W -> V, ts: seq<Tok<W>>)
    ensures ParsePipe(MapToks(f, ts)) == MapResult(f, ParsePipe(ts))
    decreases |ts|, 2
  {
    hide ParseExec;
    ExecMap(f, ts);
    match ParseExec(ts) {
      case Err(_) =>
      case Ok(c, rest) =>
        if rest != [] && rest[0].Bar? {
          MapDrop(f, rest, 1);
          PipeMap(f, rest[1..]);
        }
    }
  }

  lemma {:induction false} AmpsMap<W, V>(f: W -> V, c: Cmd<W>, ts: seq<Tok<W>>)
    ensures ParseAmps(MapCmd(f, c), MapToks(f, ts))
            == (MapCmd(f, ParseAmps(c, ts).0), MapToks(f, ParseAmps(c, ts).1))
    decreases |ts|
  {
    if ts != [] && ts[0].Amp? {
      MapDrop(f, ts, 1);
      AmpsMap(f, Back(c), ts[1..]);
    }
  }

  lemma {:induction false} LineMap<W, V>(f: W -> V, ts: seq<Tok<W>>)
    ensures ParseLine(MapToks(f, ts)) == MapResult(f, ParseLine(ts))
    decreases |ts|, 3
  {
    hide ParsePipe, ParseAmps;
    PipeMap(f, ts);
    match ParsePipe(ts) {
      case Err(_) =>
      case Ok(c, rest) =>
        AmpsMap(f, c, rest);
        var after := ParseAmps(c, rest).1;
        if after != [] && after[0].Semi? {
          MapDrop(f, after, 1);
          LineMap(f, after[1..]);
        }
    }
  }

  /** Parsing is the same whatever the words are. */
  lemma {:induction false} ParseMap<W, V>(f: W -> V, ts: seq<Tok<W>>)
    ensures Parse(MapToks(f, ts)) == MapResult(f, Parse(ts))
  {
    hide ParseLine;
    LineMap(f, ts);
    assert MapToks<W, V>(f, []) == [];
  }
}
