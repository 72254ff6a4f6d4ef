/** The command parser of sh.c as it works on a line buffer: a cursor moves over the text, and the
    words of the result are finally terminated in place. */
module Shell {

  import opened Options
  import opened ShellGrammar
  import opened ShellWords
  import opened ShellText
  import G = ShellGrammar

  /** A command and the cursor after it, or the message the shell stops with. */
  datatype Outcome = Parsed(cmd: Cmd<Span>, pos: nat) | Failed(error: Error)

  /** The parser on the buffer did what the parser on tokens does. */
  ghost predicate Agrees(s: string, o: Outcome, r: Result<Span>) {
    match r
    case Err(e) => o == Failed(e)
    case Ok(c, rest) => o.Parsed? && o.cmd == c && o.pos <= |s| && Toks(s, o.pos) == rest
  }

  function FirstChar(t: Tok<Span>): (c: char) {
    match t
    case Word(_) => ' '
    case Bar => '|'
    case Open => '('
    case Close => ')'
    case Semi => ';'
    case Amp => '&'
    case Less => '<'
    case Great => '>'
    case Append => '>'
  }

  // ---------------------------------------------------------------- lexer

  lemma {:induction false} SkipToks(s: string, i: nat)
    requires i <= |s|
    ensures Toks(s, SkipSpace(s, i)) == Toks(s, i)
    decreases |s| - i
  {
    if i < |s| && Space(s[i]) {
      SkipToks(s, i + 1);
    }
  }

  lemma {:induction false} HeadChar(s: string, p: nat)
    requires p < |s| && !Space(s[p])
    ensures Toks(s, p) != []
    ensures FirstChar(Toks(s, p)[0]) == if Symbol(s[p]) then s[p] else ' '
  {
  }

  /** Skipping white space. */
  method SkipBlanks(s: string, i: nat) returns (j: nat)
    requires i <= |s|
    ensures j == SkipSpace(s, i)
  {
    hide Space;
    j := i;
    while j < |s| && Space(s[j])
      invariant i <= j <= |s|
      invariant SkipSpace(s, j) == SkipSpace(s, i)
    {
      j := j + 1;
    }
  }

  method SkipWord(s: string, i: nat) returns (j: nat)
    requires i <= |s|
    ensures j == WordEnd(s, i)
  {
    hide WordChar;
    j := i;
    while j < |s| && WordChar(s[j])
      invariant i <= j <= |s|
      invariant WordEnd(s, j) == WordEnd(s, i)
    {
      j := j + 1;
    }
  }

  /** gettoken(): takes the first token, if there is one. */
  method GetToken(s: string, i: nat) returns (tok: Option<Tok<Span>>, j: nat)
    requires i <= |s|
    ensures j <= |s|
    ensures Toks(s, i) == [] ==> tok == None && Toks(s, j) == []
    ensures Toks(s, i) != [] ==> tok == Some(Toks(s, i)[0]) && Toks(s, j) == Toks(s, i)[1..]
  {
    var p := SkipBlanks(s, i);
    SkipToks(s, i);
    if p == |s| {
      return None, p;
    }
    var e := p + 1;
    if s[p] == '>' && p + 1 < |s| && s[p + 1] == '>' {
      tok := Some(Append);
      e := p + 2;
    } else if Symbol(s[p]) {
      tok := Some(SymTok(s[p]));
    } else {
      e := SkipWord(s, p);
      tok := Some(Word(Span(p, e)));
    }
    assert Toks(s, p) == [tok.value] + Toks(s, e);
    hide Toks;
    j := SkipBlanks(s, e);
    SkipToks(s, e);
  }

  /** peek(): moves to the next token and says whether it begins with one of `toks`. */
  method Peek(s: string, i: nat, toks: string) returns (b: bool, j: nat)
    requires i <= |s|
    requires forall c :: c in toks ==> Symbol(c)
    ensures j <= |s| && Toks(s, j) == Toks(s, i)
    ensures b <==> Toks(s, i) != [] && FirstChar(Toks(s, i)[0]) in toks
    ensures j == |s| <==> Toks(s, i) == []
  {
    j := SkipBlanks(s, i);
    SkipToks(s, i);
    b := j < |s| && s[j] in toks;
    if j < |s| {
      HeadChar(s, j);
      assert !Symbol(' ');
    }
  }

  // ---------------------------------------------------------------- parser

  /** parseredirs() */
  method ParseRedirs(cmd: Cmd<Span>, s: string, i: nat) returns (o: Outcome)
    requires i <= |s|
    ensures Agrees(s, o, G.ParseRedirs(cmd, Toks(s, i)))
  {
    hide Toks;
    var c, j: nat := cmd, i;
    while true
      invariant j <= |s|
      invariant G.ParseRedirs(c, Toks(s, j)) == G.ParseRedirs(cmd, Toks(s, i))
      decreases |Toks(s, j)|
    {
      var ts := Toks(s, j);
      var b;
      b, j := Peek(s, j, "<>");
      if !b {
        return Parsed(c, j);
      }
      var tok, file;
      tok, j := GetToken(s, j);
      file, j := GetToken(s, j);
      if file.None? || !file.value.Word? {
        return Failed(MissingFile);
      }
      c := Redirect(c, tok.value, file.value.w);
      assert Toks(s, j) == ts[2..];
    }
  }

  /** parseexec() */
  method ParseExec(s: string, i: nat) returns (o: Outcome)
    requires i <= |s|
    ensures Agrees(s, o, G.ParseExec(Toks(s, i)))
    decreases |Toks(s, i)|, 1
  {
    hide Toks, G.ParseBlock, G.ParseRedirs;
    var b, j := Peek(s, i, "(");
    if b {
      o := ParseBlock(s, j);
      return;
    }
    var argc := 0;
    o := ParseRedirs(Exec([]), s, j);
    if o.Failed? {
      return;
    }
    while true
      invariant o.Parsed? && o.pos <= |s|
      invariant G.ParseArgs(o.cmd, argc, Toks(s, o.pos)) == G.ParseExec(Toks(s, i))
      decreases |Toks(s, o.pos)|
    {
      var ts := Toks(s, o.pos);
      var stop, k := Peek(s, o.pos, "|)&;");
      if stop {
        return Parsed(o.cmd, k);
      }
      var tok;
      tok, k := GetToken(s, k);
      if tok.None? {
        return Parsed(o.cmd, k);
      }
      if !tok.value.Word? {
        return Failed(Syntax);
      }
      if argc + 1 >= MAXARGS {
        return Failed(TooManyArgs);
      }
      argc := argc + 1;
      o := ParseRedirs(AddArg(o.cmd, tok.value.w), s, k);
      if o.Failed? {
        return;
      }
    }
  }

  /** parseblock(); its check for `(` cannot fail where it is called from. */
  method ParseBlock(s: string, i: nat) returns (o: Outcome)
    requires i <= |s| && Toks(s, i) != [] && Toks(s, i)[0].Open?
    ensures Agrees(s, o, G.ParseBlock(Toks(s, i)))
    decreases |Toks(s, i)|, 0
  {
    hide Toks, G.ParseRedirs, G.ParseLine;
    var _, j := GetToken(s, i);
    o := ParseLine(s, j);
    if o.Failed? {
      return;
    }
    var c := o.cmd;
    var b, k := Peek(s, o.pos, ")");
    if !b {
      return Failed(MissingParen);
    }
    var _, m := GetToken(s, k);
    o := ParseRedirs(c, s, m);
  }

  /** parsepipe() */
  method ParsePipe(s: string, i: nat) returns (o: Outcome)
    requires i <= |s|
    ensures Agrees(s, o, G.ParsePipe(Toks(s, i)))
    decreases |Toks(s, i)|, 2
  {
    hide Toks, G.ParseExec;
    o := ParseExec(s, i);
    if o.Failed? {
      return;
    }
    var c := o.cmd;
    var b, j := Peek(s, o.pos, "|");
    if !b {
      return Parsed(c, j);
    }
    var _, k := GetToken(s, j);
    o := ParsePipe(s, k);
    if o.Parsed? {
      o := Parsed(Pipe(c, o.cmd), o.pos);
    }
  }

  /** The loop over `&` of parseline(). */
  method ParseAmps(cmd: Cmd<Span>, s: string, i: nat) returns (c: Cmd<Span>, j: nat)
    requires i <= |s|
    ensures j <= |s| && G.ParseAmps(cmd, Toks(s, i)) == (c, Toks(s, j))
  {
    hide Toks;
    c, j := cmd, i;
    while true
      invariant j <= |s|
      invariant G.ParseAmps(c, Toks(s, j)) == G.ParseAmps(cmd, Toks(s, i))
      decreases |Toks(s, j)|
    {
      var b;
      b, j := Peek(s, j, "&");
      if !b {
        return;
      }
      var _, k := GetToken(s, j);
      c, j := Back(c), k;
    }
  }

  /** parseline() */
  method ParseLine(s: string, i: nat) returns (o: Outcome)
    requires i <= |s|
    ensures Agrees(s, o, G.ParseLine(Toks(s, i)))
    decreases |Toks(s, i)|, 3
  {
    hide Toks, G.ParsePipe, G.ParseAmps;
    o := ParsePipe(s, i);
    if o.Failed? {
      return;
    }
    var c, j := ParseAmps(o.cmd, s, o.pos);
    var b;
    b, j := Peek(s, j, ";");
    if !b {
      return Parsed(c, j);
    }
    var _, k := GetToken(s, j);
    o := ParseLine(s, k);
    if o.Parsed? {
      o := Parsed(List(c, o.cmd), o.pos);
    }
  }

  // ---------------------------------------------------------------- NUL termination

  const NUL := '\0'

  /** Where the words of a command end. */
  ghost function Ends(c: Cmd<Span>): (e: set<nat>) {
    match c
    case Exec(argv) => set i | 0 <= i < |argv| :: argv[i].hi
    case Redir(d, file, _, _) => Ends(d) + {file.hi}
    case Pipe(l, r) => Ends(l) + Ends(r)
    case List(l, r) => Ends(l) + Ends(r)
    case Back(d) => Ends(d)
  }

  ghost function Cleared(b: seq<char>, at: set<nat>): (r: seq<char>)
    ensures |r| == |b| && forall k :: 0 <= k < |b| ==> r[k] == if k in at then NUL else b[k]
  {
    seq(|b|, k requires 0 <= k < |b| => if k in at then NUL else b[k])
  }

  lemma {:induction false} ClearedTwice(b: seq<char>, at: set<nat>, more: set<nat>)
    ensures Cleared(Cleared(b, at), more) == Cleared(b, at + more)
  {
  }

  /** nulterminate(): writes a NUL at the end of every word and nowhere else. */
  method NulTerminate(buf: array<char>, c: Cmd<Span>)
    requires forall e :: e in Ends(c) ==> e < buf.Length
    modifies buf
    ensures buf[..] == Cleared(old(buf[..]), Ends(c))
    decreases c
  {
    ghost var was := buf[..];
    match c {
      case Exec(argv) =>
        var i := 0;
        while i < |argv|
          invariant 0 <= i <= |argv|
          invariant forall k :: 0 <= k < |argv| ==> argv[k].hi in Ends(c)
          invariant buf[..] == Cleared(was, set k | 0 <= k < i :: argv[k].hi)
        {
          buf[argv[i].hi] := NUL;
          i := i + 1;
        }
      case Redir(d, file, _, _) =>
        assert Ends(c) == Ends(d) + {file.hi};
        NulTerminate(buf, d);
        buf[file.hi] := NUL;
        assert buf[..] == Cleared(was, Ends(c));
      case Pipe(l, r) =>
        assert Ends(c) == Ends(l) + Ends(r);
        NulTerminate(buf, l);
        NulTerminate(buf, r);
        ClearedTwice(was, Ends(l), Ends(r));
      case List(l, r) =>
        assert Ends(c) == Ends(l) + Ends(r);
        NulTerminate(buf, l);
        NulTerminate(buf, r);
        ClearedTwice(was, Ends(l), Ends(r));
      case Back(d) =>
        assert Ends(c) == Ends(d);
        NulTerminate(buf, d);
    }
  }

  /** The C string at position `i`. */
  ghost function CString(b: seq<char>, i: nat): (r: string)
    decreases |b| - i
  {
    if i < |b| && b[i] != NUL then [b[i]] + CString(b, i + 1) else []
  }

  ghost function StringAt(b: seq<char>): (f: Span -> string) {
    (w: Span) => CString(b, w.lo)
  }

  lemma {:induction false} CStringIs(b: seq<char>, i: nat, j: nat)
    requires i <= j < |b| && b[j] == NUL
    requires forall k :: i <= k < j ==> b[k] != NUL
    ensures CString(b, i) == b[i..j]
    decreases j - i
  {
    if i < j {
      CStringIs(b, i + 1, j);
      assert b[i..j] == [b[i]] + b[i + 1..j];
    }
  }

  /** Words end outside of all words. */
  lemma {:induction false} EndsOutside(s: string, c: Cmd<Span>, e: nat)
    requires AllMaximal(s, c) && e in Ends(c)
    ensures e <= |s| && (e < |s| ==> !WordChar(s[e]))
  {
    match c {
      case Exec(argv) =>
      case Redir(d, file, _, _) => if e != file.hi { EndsOutside(s, d, e); }
      case Pipe(l, r) => if e in Ends(l) { EndsOutside(s, l, e); } else { EndsOutside(s, r, e); }
      case List(l, r) => if e in Ends(l) { EndsOutside(s, l, e); } else { EndsOutside(s, r, e); }
      case Back(d) => EndsOutside(s, d, e);
    }
  }

  /** `b` holds `s` and its NUL, with further NULs outside of the words only, among them all `at`. */
  ghost predicate WordsKept(s: string, b: seq<char>, at: set<nat>) {
    && NUL !in s && |s| < |b|
    && (forall e :: e in at ==> e < |b| && b[e] == NUL)
    && (forall k :: 0 <= k < |s| && WordChar(s[k]) ==> b[k] == s[k])
  }

  lemma {:induction false} WordReads(s: string, b: seq<char>, at: set<nat>, w: Span)
    requires WordsKept(s, b, at) && Maximal(s, w) && w.hi in at
    ensures CString(b, w.lo) == s[w.lo..w.hi]
  {
    assert b[w.lo..w.hi] == s[w.lo..w.hi];
    forall k | w.lo <= k < w.hi
      ensures b[k] != NUL
    {
      assert WordChar(s[k]) && s[k] in s;
    }
    CStringIs(b, w.lo, w.hi);
  }

  /** Every word of the tree is now a C string, and the right one. */
  lemma {:induction false} TreeReads(s: string, b: seq<char>, at: set<nat>, c: Cmd<Span>)
    requires WordsKept(s, b, at) && AllMaximal(s, c) && Ends(c) <= at
    ensures MapCmd(StringAt(b), c) == MapCmd(Slice(s), c)
  {
    hide WordsKept, Maximal, CString;
    match c {
      case Exec(argv) =>
        forall i | 0 <= i < |argv|
          ensures StringAt(b)(argv[i]) == Slice(s)(argv[i])
        {
          assert argv[i].hi in Ends(c);
          WordIs(s, b, at, argv[i]);
        }
        assert MapWords(StringAt(b), argv) == MapWords(Slice(s), argv);
      case Redir(d, file, _, _) =>
        TreeReads(s, b, at, d);
        WordIs(s, b, at, file);
      case Pipe(l, r) => TreeReads(s, b, at, l); TreeReads(s, b, at, r);
      case List(l, r) => TreeReads(s, b, at, l); TreeReads(s, b, at, r);
      case Back(d) => TreeReads(s, b, at, d);
    }
  }

  lemma {:induction false} WordIs(s: string, b: seq<char>, at: set<nat>, w: Span)
    requires WordsKept(s, b, at) && Maximal(s, w) && w.hi in at
    ensures StringAt(b)(w) == Slice(s)(w)
  {
    WordReads(s, b, at, w);
  }

  /** Termination keeps the words: no NUL lands inside one. */
  lemma {:induction false} ClearedKeeps(s: string, b: seq<char>, c: Cmd<Span>)
    requires NUL !in s && |s| < |b| && b[..|s|] == s && AllMaximal(s, c)
    ensures WordsKept(s, Cleared(b, Ends(c)), Ends(c))
  {
    hide AllMaximal, WordChar;
    forall e | e in Ends(c)
      ensures e <= |s| && (e < |s| ==> !WordChar(s[e]))
    {
      EndsOutside(s, c, e);
    }
    var r := Cleared(b, Ends(c));
    forall k | 0 <= k < |s| && WordChar(s[k])
      ensures r[k] == s[k]
    {
      assert b[..|s|][k] == b[k];
    }
  }

  // ---------------------------------------------------------------- parsecmd

  method Strlen(buf: array<char>) returns (n: nat)
    requires NUL in buf[..]
    ensures n < buf.Length && buf[n] == NUL && NUL !in buf[..n]
  {
    n := 0;
    while buf[n] != NUL
      invariant n < buf.Length && NUL !in buf[..n]
      invariant NUL in buf[n..]
      decreases buf.Length - n
    {
      n := n + 1;
    }
  }

  /** parsecmd(): the line in `buf` parses exactly as its tokens do; after success every word of the
      tree points at a C string that is the word as it was typed. */
  method ParseCmd(buf: array<char>) returns (o: Outcome, n: nat)
    requires NUL in buf[..]
    modifies buf
    ensures n < buf.Length && old(buf[n]) == NUL && NUL !in old(buf[..n])
    ensures var s := old(buf[..n]);
            match Parse(Toks(s, 0))
            case Err(e) => o == Failed(e) && buf[..] == old(buf[..])
            case Ok(c, _) =>
              && o == Parsed(c, n)
              && MapCmd(StringAt(buf[..]), c) == MapCmd(Slice(s), c)
              && WordsKept(s, buf[..], Ends(c))
  {
    hide Toks, G.ParseLine, AllMaximal, WordsKept, Cleared, MapCmd;
    n := Strlen(buf);
    var s := buf[..n];
    ghost var was := buf[..];
    o := ParseLine(s, 0);
    if o.Failed? {
      return;
    }
    var _, j := Peek(s, o.pos, "");
    if j != n {
      return Failed(Leftovers), n;
    }
    o := Parsed(o.cmd, n);
    ParsedIsMaximal(s);
    forall e | e in Ends(o.cmd)
      ensures e < buf.Length
    {
      EndsOutside(s, o.cmd, e);
    }
    NulTerminate(buf, o.cmd);
    assert was[..n] == s;
    ClearedKeeps(s, was, o.cmd);
    TreeReads(s, buf[..], Ends(o.cmd), o.cmd);
  }
}
