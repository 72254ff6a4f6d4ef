/** The tokens of sh.c in a line of text, printing of command trees, and the round trip between the
    two. */
module ShellText {

  import opened Options
  import opened ShellGrammar
  import opened ShellWords

  const WHITESPACE := " \t\r\n\U{0B}"
  const SYMBOLS := "<|>&;()"

  predicate Space(c: char) {
    c in WHITESPACE
  }

  predicate Symbol(c: char) {
    c in SYMBOLS
  }

  predicate WordChar(c: char) {
    !Space(c) && !Symbol(c)
  }

  /** A word in the buffer: the pointers q and eq of gettoken(). */
  datatype Span = Span(lo: nat, hi: nat)

  function SkipSpace(s: string, i: nat): (j: nat)
    requires i <= |s|
    ensures i <= j <= |s| && (j < |s| ==> !Space(s[j]))
    decreases |s| - i
  {
    if i < |s| && Space(s[i]) then SkipSpace(s, i + 1) else i
  }

  function WordEnd(s: string, i: nat): (j: nat)
    requires i <= |s|
    ensures i <= j <= |s| && (j < |s| ==> !WordChar(s[j]))
    ensures i < |s| && WordChar(s[i]) ==> i < j
    ensures forall k :: i <= k < j ==> WordChar(s[k])
    decreases |s| - i
  {
    if i < |s| && WordChar(s[i]) then WordEnd(s, i + 1) else i
  }

  function SymTok<W>(c: char): (t: Tok<W>) {
    match c
    case '|' => Bar
    case '(' => Open
    case ')' => Close
    case ';' => Semi
    case '&' => Amp
    case '<' => Less
    case _ => Great
  }

  predicate Doubled(s: string, i: nat) {
    i + 1 < |s| && s[i] == '>' && s[i + 1] == '>'
  }

  /** The tokens from position `i` on. */
  function Toks(s: string, i: nat): (ts: seq<Tok<Span>>)
    requires i <= |s|
    decreases |s| - i
  {
    if i == |s| then []
    else if Space(s[i]) then Toks(s, i + 1)
    else if Doubled(s, i) then [Append] + Toks(s, i + 2)
    else if Symbol(s[i]) then [SymTok(s[i])] + Toks(s, i + 1)
    else [Word(Span(i, WordEnd(s, i)))] + Toks(s, WordEnd(s, i))
  }

  // ---------------------------------------------------------------- words are maximal

  /** A non-empty run of word characters that cannot be made longer. */
  predicate Maximal(s: string, w: Span) {
    && w.lo < w.hi <= |s|
    && (forall k :: w.lo <= k < w.hi ==> WordChar(s[k]))
    && (w.hi < |s| ==> !WordChar(s[w.hi]))
  }

  lemma {:induction false} TokMaximal(s: string, i: nat, k: nat)
    requires i <= |s| && k < |Toks(s, i)| && Toks(s, i)[k].Word?
    ensures Maximal(s, Toks(s, i)[k].w)
    decreases |s| - i
  {
    if Space(s[i]) {
      TokMaximal(s, i + 1, k);
    } else if Doubled(s, i) {
      TokMaximal(s, i + 2, k - 1);
    } else if Symbol(s[i]) {
      TokMaximal(s, i + 1, k - 1);
    } else if k > 0 {
      TokMaximal(s, WordEnd(s, i), k - 1);
    }
  }

  /** Every word of a command is a maximal word of the text. */
  predicate AllMaximal(s: string, c: Cmd<Span>) {
    match c
    case Exec(argv) => forall i :: 0 <= i < |argv| ==> Maximal(s, argv[i])
    case Redir(d, file, _, _) => AllMaximal(s, d) && Maximal(s, file)
    case Pipe(l, r) => AllMaximal(s, l) && AllMaximal(s, r)
    case List(l, r) => AllMaximal(s, l) && AllMaximal(s, r)
    case Back(d) => AllMaximal(s, d)
  }

  /** Moves exactly the words that are not maximal. */
  function Mark(s: string): (f: Span -> Span) {
    (w: Span) => if Maximal(s, w) then w else Span(w.lo, w.hi + 1)
  }

  lemma {:induction false} UnmarkedIsMaximal(s: string, c: Cmd<Span>)
    requires MapCmd(Mark(s), c) == c
    ensures AllMaximal(s, c)
  {
    match c {
      case Exec(argv) =>
        forall i | 0 <= i < |argv|
          ensures Maximal(s, argv[i])
        {
          assert MapWords(Mark(s), argv)[i] == argv[i];
        }
      case Redir(d, _, _, _) => UnmarkedIsMaximal(s, d);
      case Pipe(l, r) => UnmarkedIsMaximal(s, l); UnmarkedIsMaximal(s, r);
      case List(l, r) => UnmarkedIsMaximal(s, l); UnmarkedIsMaximal(s, r);
      case Back(d) => UnmarkedIsMaximal(s, d);
    }
  }

  /** Parsing invents no words: it treats all words alike, so a change of words that leaves the
      tokens alone leaves the tree alone. */
  lemma {:induction false} ParsedIsMaximal(s: string)
    requires Parse(Toks(s, 0)).Ok?
    ensures AllMaximal(s, Parse(Toks(s, 0)).cmd)
  {
    hide Parse, Toks, Maximal;
    var ts := Toks(s, 0);
    forall k | 0 <= k < |ts| && ts[k].Word?
      ensures Maximal(s, ts[k].w)
    {
      TokMaximal(s, 0, k);
    }
    assert MapToks(Mark(s), ts) == ts;
    ParseMap(Mark(s), ts);
    UnmarkedIsMaximal(s, Parse(ts).cmd);
  }

  // ---------------------------------------------------------------- tokens as strings

  function Slice(s: string): (f: Span -> string) {
    (w: Span) => if w.lo <= w.hi <= |s| then s[w.lo..w.hi] else ""
  }

  function WordLen(s: string): (n: nat)
    ensures n <= |s|
    ensures s != [] && WordChar(s[0]) ==> n > 0
  {
    if s != [] && WordChar(s[0]) then 1 + WordLen(s[1..]) else 0
  }

  function Lex(s: string): (ts: seq<Tok<string>>)
    decreases |s|
  {
    if s == [] then []
    else if Space(s[0]) then Lex(s[1..])
    else if Doubled(s, 0) then [Append] + Lex(s[2..])
    else if Symbol(s[0]) then [SymTok(s[0])] + Lex(s[1..])
    else [Word(s[..WordLen(s)])] + Lex(s[WordLen(s)..])
  }

  lemma {:induction false} WordEndIsLen(s: string, i: nat)
    requires i <= |s|
    ensures WordEnd(s, i) == i + WordLen(s[i..])
    decreases |s| - i
  {
    if i < |s| && WordChar(s[i]) {
      assert s[i..][1..] == s[i + 1..];
      WordEndIsLen(s, i + 1);
    }
  }

  /** The tokens found at positions of the buffer are those of its text. */
  lemma {:induction false} ToksAreLex(s: string, i: nat)
    requires i <= |s|
    ensures MapToks(Slice(s), Toks(s, i)) == Lex(s[i..])
    decreases |s| - i, 1
  {
    hide WordChar, Space, Symbol;
    var t := s[i..];
    if i == |s| {
    } else if Space(s[i]) {
      assert t[1..] == s[i + 1..];
      ToksAreLex(s, i + 1);
    } else if Doubled(s, i) {
      assert t[2..] == s[i + 2..];
      ToksAreLex(s, i + 2);
    } else if Symbol(s[i]) {
      assert t[1..] == s[i + 1..];
      ToksAreLex(s, i + 1);
    } else {
      ToksAreLexWord(s, i);
    }
  }

  lemma {:induction false} ToksAreLexWord(s: string, i: nat)
    requires i < |s| && !Space(s[i]) && !Symbol(s[i])
    ensures MapToks(Slice(s), Toks(s, i)) == Lex(s[i..])
    decreases |s| - i, 0
  {
    assert s[i] != '>' && WordChar(s[i]);
    hide Space, Symbol, WordChar;
    var t := s[i..];
    var e := WordEnd(s, i);
    WordEndIsLen(s, i);
    ToksAreLex(s, e);
    assert t[..e - i] == s[i..e] && t[e - i..] == s[e..];
    assert Toks(s, i) == [Word(Span(i, e))] + Toks(s, e) && Lex(t) == [Word(s[i..e])] + Lex(s[e..]) by {
      assert t[0] == s[i] && WordLen(t) == e - i;
    }
    hide Toks, Lex;
    MapCons(Slice(s), Word(Span(i, e)), Toks(s, e));
  }

  lemma {:induction false} MapCons(f: Span -> string, t: Tok<Span>, ts: seq<Tok<Span>>)
    ensures MapToks(f, [t] + ts) == [MapTok(f, t)] + MapToks(f, ts)
  {
  }

  // ---------------------------------------------------------------- printing

  predicate IsWord(w: string) {
    w != [] && forall k :: 0 <= k < |w| ==> WordChar(w[k])
  }

  /** The trees the shell can be asked to run. */
  predicate Printable(c: Cmd<string>) {
    match c
    case Exec(argv) => |argv| < MAXARGS && forall i :: 0 <= i < |argv| ==> IsWord(argv[i])
    case Redir(d, file, mode, fd) =>
      && Printable(d) && IsWord(file)
      && ((mode == O_RDONLY && fd == 0) || (mode == O_WRONLY + O_CREATE && fd == 1))
    case Pipe(l, r) => Printable(l) && Printable(r)
    case List(l, r) => Printable(l) && Printable(r)
    case Back(d) => Printable(d)
  }

  function PrintWords(ws: seq<string>): (s: string) {
    if ws == [] then "" else ws[0] + " " + PrintWords(ws[1..])
  }

  /** For each part of a command, numbered from the root down, whether a redirection of output there is spelt
      with two signs. */
  type Spelling = nat -> bool

  function Arrow(fd: nat, twice: bool): (s: string) {
    if fd == 0 then "<" else if twice then ">>" else ">"
  }

  function DirOf(fd: nat, twice: bool): (d: Dir) {
    if fd == 0 then In else if twice then More else Out
  }

  /** A command with every part in parentheses. */
  function Print(c: Cmd<string>, a: Spelling, n: nat): (s: string) {
    match c
    case Exec(argv) => PrintWords(argv)
    case Redir(d, file, _, fd) => "(" + Print(d, a, 2 * n) + ")" + Arrow(fd, a(n)) + file
    case Pipe(l, r) => "(" + Print(l, a, 2 * n) + ")|(" + Print(r, a, 2 * n + 1) + ")"
    case List(l, r) => "(" + Print(l, a, 2 * n) + ");(" + Print(r, a, 2 * n + 1) + ")"
    case Back(d) => "(" + Print(d, a, 2 * n) + ")&"
  }

  function ArgItems(ws: seq<string>): (items: seq<Item<string>>) {
    if ws == [] then [] else [Arg(ws[0])] + ArgItems(ws[1..])
  }

  function Paren(l: Line<string>): (p: Pipeline<string>) {
    Pipeline(Block(l, []), None)
  }

  /** The derivation of a printed command. */
  function Full(c: Cmd<string>, a: Spelling, n: nat): (l: Line<string>) {
    match c
    case Exec(argv) => Line(Pipeline(Simple(ArgItems(argv)), None), 0, None)
    case Redir(d, file, _, fd) =>
      Line(Pipeline(Block(Full(d, a, 2 * n), [Redirection(DirOf(fd, a(n)), file)]), None), 0, None)
    case Pipe(l, r) => Line(Pipeline(Block(Full(l, a, 2 * n), []), Some(Paren(Full(r, a, 2 * n + 1)))), 0, None)
    case List(l, r) => Line(Paren(Full(l, a, 2 * n)), 0, Some(Line(Paren(Full(r, a, 2 * n + 1)), 0, None)))
    case Back(d) => Line(Paren(Full(d, a, 2 * n)), 1, None)
  }

  lemma {:induction false} ArgItemsShape(ws: seq<string>)
    ensures Args(ArgItems(ws)) == ws && Reds(ArgItems(ws)) == []
  {
    if ws != [] {
      var items := ArgItems(ws);
      assert items[1..] == ArgItems(ws[1..]);
      ArgItemsShape(ws[1..]);
    }
  }

  /** What the derivations used by printing stand for. */
  lemma {:induction false} LineShape(p: Pipeline<string>, n: nat)
    ensures LineToks(Line(p, n, None)) == PipeToks(p) + Amps(n)
    ensures LineTree(Line(p, n, None)) == Backs(PipeTree(p), n)
    ensures LegalLine(Line(p, n, None)) <==> LegalPipe(p)
  {
  }

  lemma {:induction false} LineThenShape(p: Pipeline<string>, m: Line<string>)
    ensures LineToks(Line(p, 0, Some(m))) == PipeToks(p) + [Semi] + LineToks(m)
    ensures LineTree(Line(p, 0, Some(m))) == List(PipeTree(p), LineTree(m))
    ensures LegalLine(Line(p, 0, Some(m))) <==> LegalPipe(p) && LegalLine(m)
  {
    hide PipeToks, PipeTree, LegalPipe;
  }

  lemma {:induction false} PipeShape(c: Command<string>)
    ensures PipeToks(Pipeline(c, None)) == CommandToks(c)
    ensures PipeTree(Pipeline(c, None)) == CommandTree(c)
    ensures LegalPipe(Pipeline(c, None)) <==> LegalCommand(c)
  {
    hide CommandToks, CommandTree, LegalCommand;
  }

  lemma {:induction false} PipeThenShape(c: Command<string>, q: Pipeline<string>)
    ensures PipeToks(Pipeline(c, Some(q))) == CommandToks(c) + [Bar] + PipeToks(q)
    ensures PipeTree(Pipeline(c, Some(q))) == Pipe(CommandTree(c), PipeTree(q))
    ensures LegalPipe(Pipeline(c, Some(q))) <==> LegalCommand(c) && LegalPipe(q)
  {
    hide CommandToks, CommandTree, LegalCommand;
  }

  function Group(l: Line<string>): (ts: seq<Tok<string>>) {
    [Open] + LineToks(l) + [Close]
  }

  lemma {:induction false} ParenShape(l: Line<string>)
    ensures CommandToks(Block(l, [])) == Group(l) && PipeToks(Paren(l)) == Group(l)
    ensures CommandTree(Block(l, [])) == LineTree(l) && PipeTree(Paren(l)) == LineTree(l)
    ensures LegalCommand(Block(l, [])) == LegalPipe(Paren(l)) == LegalLine(l)
  {
    PipeShape(Block(l, []));
    hide PipeToks, PipeTree, LegalPipe, LineToks, LineTree, LegalLine;
    assert RedsToks<string>([]) == [];
  }

  lemma {:induction false} RedirShape(l: Line<string>, r: Redirection<string>)
    ensures CommandToks(Block(l, [r])) == Group(l) + [DirTok(r.dir), Word(r.file)]
    ensures CommandTree(Block(l, [r])) == Apply(LineTree(l), r)
    ensures LegalCommand(Block(l, [r])) <==> LegalLine(l)
  {
    RedsOne(r);
    WrapOne(LineTree(l), r);
    hide LineToks, LineTree, LegalLine, Wrap, RedsToks;
  }

  lemma {:induction false} NoAmps(c: Cmd<string>)
    ensures Amps<string>(0) == [] && Amps<string>(1) == [Amp]
    ensures Backs(c, 0) == c && Backs(c, 1) == Back(c)
  {
  }

  lemma {:induction false} FullExec(argv: seq<string>, a: Spelling, n: nat)
    requires |argv| < MAXARGS
    ensures var c := Exec(argv); LegalLine(Full(c, a, n)) && LineTree(Full(c, a, n)) == c
    ensures LineToks(Full(Exec(argv), a, n)) == ItemsToks(ArgItems(argv))
  {
    hide LineToks, LineTree, LegalLine, PipeToks, PipeTree, LegalPipe;
    var body := Simple(ArgItems(argv));
    ArgItemsShape(argv);
    PipeShape(body);
    LineShape(Pipeline(body, None), 0);
    NoAmps(CommandTree(body));
    WrapNone(Exec(argv));
  }

  lemma {:induction false} FullRedir(d: Cmd<string>, file: string, mode: nat, fd: nat, a: Spelling, n: nat)
    ensures var c := Redir(d, file, mode, fd);
            var r := Redirection(DirOf(fd, a(n)), file);
            && (LegalLine(Full(c, a, n)) <==> LegalLine(Full(d, a, 2 * n)))
            && LineTree(Full(c, a, n)) == Apply(LineTree(Full(d, a, 2 * n)), r)
            && LineToks(Full(c, a, n)) == Group(Full(d, a, 2 * n)) + [DirTok(r.dir), Word(file)]
  {
    hide LineToks, LineTree, LegalLine, PipeToks, PipeTree, LegalPipe, CommandToks, CommandTree, LegalCommand;
    var r := Redirection(DirOf(fd, a(n)), file);
    var body := Block(Full(d, a, 2 * n), [r]);
    RedirShape(Full(d, a, 2 * n), r);
    PipeShape(body);
    LineShape(Pipeline(body, None), 0);
    NoAmps(CommandTree(body));
  }

  lemma {:induction false} FullPipe(l: Cmd<string>, r: Cmd<string>, a: Spelling, n: nat)
    ensures var c := Pipe(l, r);
            && (LegalLine(Full(c, a, n)) <==> LegalLine(Full(l, a, 2 * n)) && LegalLine(Full(r, a, 2 * n + 1)))
            && LineTree(Full(c, a, n)) == Pipe(LineTree(Full(l, a, 2 * n)), LineTree(Full(r, a, 2 * n + 1)))
            && LineToks(Full(c, a, n)) == Group(Full(l, a, 2 * n)) + [Bar] + Group(Full(r, a, 2 * n + 1))
  {
    hide LineToks, LineTree, LegalLine, PipeToks, PipeTree, LegalPipe, CommandToks, CommandTree, LegalCommand;
    var body := Block(Full(l, a, 2 * n), []);
    var q := Pipeline(body, Some(Paren(Full(r, a, 2 * n + 1))));
    ParenShape(Full(l, a, 2 * n));
    ParenShape(Full(r, a, 2 * n + 1));
    PipeThenShape(body, Paren(Full(r, a, 2 * n + 1)));
    LineShape(q, 0);
    NoAmps(PipeTree(q));
  }

  lemma {:induction false} FullList(l: Cmd<string>, r: Cmd<string>, a: Spelling, n: nat)
    ensures var c := List(l, r);
            && (LegalLine(Full(c, a, n)) <==> LegalLine(Full(l, a, 2 * n)) && LegalLine(Full(r, a, 2 * n + 1)))
            && LineTree(Full(c, a, n)) == List(LineTree(Full(l, a, 2 * n)), LineTree(Full(r, a, 2 * n + 1)))
            && LineToks(Full(c, a, n)) == Group(Full(l, a, 2 * n)) + [Semi] + Group(Full(r, a, 2 * n + 1))
  {
    hide LineToks, LineTree, LegalLine, PipeToks, PipeTree, LegalPipe;
    ParenShape(Full(l, a, 2 * n));
    ParenShape(Full(r, a, 2 * n + 1));
    LineShape(Paren(Full(r, a, 2 * n + 1)), 0);
    NoAmps(PipeTree(Paren(Full(r, a, 2 * n + 1))));
    LineThenShape(Paren(Full(l, a, 2 * n)), Line(Paren(Full(r, a, 2 * n + 1)), 0, None));
  }

  lemma {:induction false} FullBack(d: Cmd<string>, a: Spelling, n: nat)
    ensures LegalLine(Full(Back(d), a, n)) <==> LegalLine(Full(d, a, 2 * n))
    ensures LineTree(Full(Back(d), a, n)) == Back(LineTree(Full(d, a, 2 * n)))
    ensures LineToks(Full(Back(d), a, n)) == Group(Full(d, a, 2 * n)) + [Amp]
  {
    hide LineToks, LineTree, LegalLine, PipeToks, PipeTree, LegalPipe;
    ParenShape(Full(d, a, 2 * n));
    LineShape(Paren(Full(d, a, 2 * n)), 1);
    NoAmps(PipeTree(Paren(Full(d, a, 2 * n))));
  }

  lemma {:induction false} FullDerives(c: Cmd<string>, a: Spelling, n: nat)
    requires Printable(c)
    ensures LegalLine(Full(c, a, n)) && LineTree(Full(c, a, n)) == c
  {
    hide Full, LegalLine, LineTree, LineToks, IsWord;
    match c {
      case Exec(argv) => FullExec(argv, a, n);
      case Redir(d, file, mode, fd) => FullDerives(d, a, 2 * n); FullRedir(d, file, mode, fd, a, n);
      case Pipe(l, r) => FullDerives(l, a, 2 * n); FullDerives(r, a, 2 * n + 1); FullPipe(l, r, a, n);
      case List(l, r) => FullDerives(l, a, 2 * n); FullDerives(r, a, 2 * n + 1); FullList(l, r, a, n);
      case Back(d) => FullDerives(d, a, 2 * n); FullBack(d, a, n);
    }
  }

  lemma {:induction false} RedsOne(r: Redirection<string>)
    ensures RedsToks([r]) == [DirTok(r.dir), Word(r.file)]
  {
    var rs := [r];
    assert rs[1..] == [];
  }

  lemma {:induction false} WrapOne(c: Cmd<string>, r: Redirection<string>)
    ensures Wrap(c, [r]) == Apply(c, r)
  {
    WrapLast(c, [], r);
    assert [] + [r] == [r];
  }

  // ---------------------------------------------------------------- reading back

  predicate Stops(x: string) {
    x == [] || !WordChar(x[0])
  }

  lemma {:induction false} LexSpace(x: string)
    ensures Lex(" " + x) == Lex(x)
  {
    assert (" " + x)[1..] == x;
  }

  lemma {:induction false} LexSym(c: char, x: string)
    requires Symbol(c) && (c == '>' ==> x == [] || x[0] != '>')
    ensures Lex([c] + x) == [SymTok(c)] + Lex(x)
  {
    var t := [c] + x;
    assert t[1..] == x && !Space(c);
  }

  lemma {:induction false} WordLenOf(w: string, x: string)
    requires (forall k :: 0 <= k < |w| ==> WordChar(w[k])) && Stops(x)
    ensures WordLen(w + x) == |w|
  {
    hide WordChar;
    if w == [] {
      assert w + x == x;
    } else {
      assert (w + x)[1..] == w[1..] + x;
      WordLenOf(w[1..], x);
    }
  }

  lemma {:induction false} LexWord(w: string, x: string)
    requires IsWord(w) && Stops(x)
    ensures Lex(w + x) == [Word(w)] + Lex(x)
  {
    WordLenOf(w, x);
    var t := w + x;
    assert t[0] == w[0] && WordChar(t[0]);
    assert t[..|w|] == w && t[|w|..] == x;
  }

  lemma {:induction false} LexWords(ws: seq<string>, x: string)
    requires forall i :: 0 <= i < |ws| ==> IsWord(ws[i])
    ensures Lex(PrintWords(ws) + x) == ItemsToks(ArgItems(ws)) + Lex(x)
    decreases |ws|
  {
    hide Lex, IsWord;
    if ws == [] {
      assert PrintWords(ws) + x == x;
    } else {
      var y := PrintWords(ws[1..]) + x;
      assert PrintWords(ws) + x == ws[0] + (" " + y);
      LexWord(ws[0], " " + y);
      LexSpace(y);
      LexWords(ws[1..], x);
      var items := ArgItems(ws);
      assert items[1..] == ArgItems(ws[1..]);
    }
  }

  /** A parenthesised command is read as a block. */
  lemma {:induction false} LexParen(c: Cmd<string>, a: Spelling, n: nat, x: string)
    requires Printable(c)
    ensures Lex("(" + Print(c, a, n) + ")" + x) == Group(Full(c, a, n)) + Lex(x)
    decreases c, 2
  {
    hide Lex, Print, LineToks, Full, Printable;
    var y := ")" + x;
    assert "(" + Print(c, a, n) + ")" + x == "(" + (Print(c, a, n) + y);
    LexSym('(', Print(c, a, n) + y);
    LexPrint(c, a, n, y);
    LexSym(')', x);
  }

  /** Printed text is read as the tokens of its derivation. */
  lemma {:induction false} LexPrint(c: Cmd<string>, a: Spelling, n: nat, x: string)
    requires Printable(c) && Stops(x)
    ensures Lex(Print(c, a, n) + x) == LineToks(Full(c, a, n)) + Lex(x)
    decreases c, 1
  {
    hide Lex, Full, LineToks, Group, IsWord;
    match c {
      case Exec(argv) => FullExec(argv, a, n); LexWords(argv, x);
      case Redir(d, file, mode, fd) => LexRedir(d, file, mode, fd, a, n, x);
      case Pipe(l, r) => LexTwo(c, a, n, '|', x); FullPipe(l, r, a, n); assert Print(c, a, n) == Two(l, r, a, n, '|');
      case List(l, r) => LexTwo(c, a, n, ';', x); FullList(l, r, a, n); assert Print(c, a, n) == Two(l, r, a, n, ';');
      case Back(d) => LexBack(d, a, n, x);
    }
  }

  function Two(l: Cmd<string>, r: Cmd<string>, a: Spelling, n: nat, sym: char): (s: string) {
    "(" + Print(l, a, 2 * n) + ")" + [sym] + "(" + Print(r, a, 2 * n + 1) + ")"
  }

  lemma {:induction false} LexTwo(c: Cmd<string>, a: Spelling, n: nat, sym: char, x: string)
    requires (c.Pipe? && sym == '|') || (c.List? && sym == ';')
    requires Printable(c.left) && Printable(c.right)
    ensures Lex(Two(c.left, c.right, a, n, sym) + x)
            == Group(Full(c.left, a, 2 * n)) + [SymTok(sym)] + Group(Full(c.right, a, 2 * n + 1)) + Lex(x)
    decreases c, 0
  {
    AreSymbols();
    hide Lex, Print, Full, Group, Printable, Symbol, SymTok;
    var y := "(" + Print(c.right, a, 2 * n + 1) + ")" + x;
    assert Two(c.left, c.right, a, n, sym) + x == "(" + Print(c.left, a, 2 * n) + ")" + ([sym] + y);
    LexParen(c.left, a, 2 * n, [sym] + y);
    LexSym(sym, y);
    LexParen(c.right, a, 2 * n + 1, x);
  }

  lemma {:induction false} AreSymbols()
    ensures Symbol('(') && Symbol(')') && Symbol('|') && Symbol(';') && Symbol('&')
    ensures !WordChar(')')
    ensures SymTok<string>('&') == Amp
  {
  }

  lemma {:induction false} PrintRedir(d: Cmd<string>, file: string, mode: nat, fd: nat, a: Spelling, n: nat, x: string)
    ensures Print(Redir(d, file, mode, fd), a, n) + x
            == "(" + Print(d, a, 2 * n) + ")" + (Arrow(fd, a(n)) + (file + x))
  {
  }

  lemma {:induction false} LexRedir(d: Cmd<string>, file: string, mode: nat, fd: nat, a: Spelling, n: nat, x: string)
    requires Printable(d) && IsWord(file) && Stops(x)
    ensures var c := Redir(d, file, mode, fd); Lex(Print(c, a, n) + x) == LineToks(Full(c, a, n)) + Lex(x)
    decreases d, 3
  {
    hide Lex, Print, Full, LineToks, Group, IsWord, Printable, Stops;
    PrintRedir(d, file, mode, fd, a, n, x);
    FullRedir(d, file, mode, fd, a, n);
    LexParen(d, a, 2 * n, Arrow(fd, a(n)) + (file + x));
    LexFile(fd, a(n), file, x);
  }

  lemma {:induction false} PrintBack(d: Cmd<string>, a: Spelling, n: nat, x: string)
    ensures Print(Back(d), a, n) + x == "(" + Print(d, a, 2 * n) + ")" + (['&'] + x)
  {
  }

  lemma {:induction false} LexBack(d: Cmd<string>, a: Spelling, n: nat, x: string)
    requires Printable(d) && Stops(x)
    ensures Lex(Print(Back(d), a, n) + x) == LineToks(Full(Back(d), a, n)) + Lex(x)
    decreases d, 3
  {
    AreSymbols();
    hide Lex, Print, Full, LineToks, Group, Printable, Symbol, SymTok, Stops;
    PrintBack(d, a, n, x);
    FullBack(d, a, n);
    LexParen(d, a, 2 * n, ['&'] + x);
    LexSym('&', x);
  }

  lemma {:induction false} LexFile(fd: nat, twice: bool, file: string, x: string)
    requires IsWord(file) && Stops(x)
    ensures Lex(Arrow(fd, twice) + (file + x)) == [DirTok(DirOf(fd, twice)), Word(file)] + Lex(x)
  {
    hide IsWord, WordChar, Lex, Stops;
    var y := file + x;
    WordStarts(file, x);
    LexWord(file, x);
    if fd != 0 && twice {
      LexTwice(y);
    } else {
      LexOnce(if fd == 0 then '<' else '>', y);
    }
  }

  lemma {:induction false} WordStarts(file: string, x: string)
    requires IsWord(file)
    ensures file + x != [] && (file + x)[0] != '>'
  {
    assert WordChar(file[0]);
  }

  lemma {:induction false} LexTwice(y: string)
    ensures Lex(">>" + y) == [Append] + Lex(y)
  {
    assert (">>" + y)[2..] == y && !Space('>');
  }

  lemma {:induction false} LexOnce(c: char, y: string)
    requires (c == '<' || c == '>') && y != [] && y[0] != '>'
    ensures Lex([c] + y) == [if c == '<' then Less else Great] + Lex(y)
  {
    LexSym(c, y);
  }

  /** Parsing inverts printing, for every command tree with proper words and few enough arguments, and however
      its redirections of output are spelt. */
  lemma {:induction false} RoundTrip(c: Cmd<string>, a: Spelling)
    requires Printable(c)
    ensures var s := Print(c, a, 1);
            var r := Parse(Toks(s, 0));
            r.Ok? && MapCmd(Slice(s), r.cmd) == c
  {
    hide Parse, Toks, Lex, Full, LineToks, LineTree, LegalLine, Print, Printable;
    var s := Print(c, a, 1);
    ToksAreLex(s, 0);
    assert s[0..] == s && s + "" == s;
    LexPrint(c, a, 1, "");
    LexNothing();
    FullDerives(c, a, 1);
    var ts := LineToks(Full(c, a, 1));
    assert ts + [] == ts;
    ParsesExactly(ts, c);
    assert Derives(Full(c, a, 1), ts, c);
    ParseMap(Slice(s), Toks(s, 0));
  }

  lemma {:induction false} LexNothing()
    ensures Lex("") == []
  {
  }
}
