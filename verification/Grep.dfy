/** The regular expression matcher of grep.c against a declarative meaning of its patterns. Strings
    are C strings without their terminating NUL. */
module Grep {

  /** What one position of a pattern accepts. */
  datatype Sym = Any | Lit(c: char)

  /** A pattern is a sequence of these, possibly tied to the end of the text. */
  datatype Item = One(s: Sym) | Star(s: Sym)

  datatype Pattern = Pattern(items: seq<Item>, atEnd: bool)

  function SymOf(c: char): (s: Sym) {
    if c == '.' then Any else Lit(c)
  }

  predicate Accepts(s: Sym, c: char) {
    s.Any? || s.c == c
  }

  /** How the matcher reads a pattern: a character followed by `*` repeats, a final `$` is the end,
      anything else stands for itself (or, if it is `.`, for any character). */
  function Decode(re: string): (p: Pattern) {
    if re == [] then Pattern([], false)
    else if |re| >= 2 && re[1] == '*' then
      var p := Decode(re[2..]);
      p.(items := [Star(SymOf(re[0]))] + p.items)
    else if re == "$" then Pattern([], true)
    else
      var p := Decode(re[1..]);
      p.(items := [One(SymOf(re[0]))] + p.items)
  }

  // ---------------------------------------------------------------- meaning

  /** The strings an item stands for. */
  ghost predicate Fits(it: Item, w: string) {
    match it
    case One(s) => |w| == 1 && Accepts(s, w[0])
    case Star(s) => forall k :: 0 <= k < |w| ==> Accepts(s, w[k])
  }

  ghost function Join(parts: seq<string>): (w: string) {
    if parts == [] then [] else parts[0] + Join(parts[1..])
  }

  /** `parts` cuts a string into one piece per item. */
  ghost predicate Cuts(items: seq<Item>, parts: seq<string>) {
    |parts| == |items| && forall i :: 0 <= i < |items| ==> Fits(items[i], parts[i])
  }

  /** `w` is one of the strings the items stand for together. */
  ghost predicate InLang(items: seq<Item>, w: string) {
    exists parts: seq<string> :: Cuts(items, parts) && Join(parts) == w
  }

  /** Some prefix of `text` matches; all of it, if the pattern ends in `$`. */
  ghost predicate MatchesHere(p: Pattern, text: string) {
    exists j :: 0 <= j <= |text| && (p.atEnd ==> j == |text|) && InLang(p.items, text[..j])
  }

  /** Some substring of `text` matches; one at the start, if the pattern begins with `^`. */
  ghost predicate Matches(re: string, text: string) {
    if re != [] && re[0] == '^' then MatchesHere(Decode(re[1..]), text)
    else exists i :: 0 <= i <= |text| && MatchesHere(Decode(re), text[i..])
  }

  // ---------------------------------------------------------------- taking a pattern apart

  lemma {:induction false} LangCons(it: Item, items: seq<Item>, v: string, w: string)
    requires Fits(it, v) && InLang(items, w)
    ensures InLang([it] + items, v + w)
  {
    var parts: seq<string> :| Cuts(items, parts) && Join(parts) == w;
    var all := [v] + parts;
    assert all[1..] == parts;
    assert Cuts([it] + items, all) && Join(all) == v + w;
  }

  lemma {:induction false} LangSplit(it: Item, items: seq<Item>, w: string) returns (k: nat)
    requires InLang([it] + items, w)
    ensures k <= |w| && Fits(it, w[..k]) && InLang(items, w[k..])
  {
    var all := [it] + items;
    var parts: seq<string> :| Cuts(all, parts) && Join(parts) == w;
    k := |parts[0]|;
    assert w[..k] == parts[0] && w[k..] == Join(parts[1..]);
    assert all[0] == it;
    assert Cuts(items, parts[1..]) by {
      forall i | 0 <= i < |items|
        ensures Fits(items[i], parts[1..][i])
      {
        assert all[i + 1] == items[i];
      }
    }
  }

  lemma {:induction false} LangEmpty(w: string)
    ensures InLang([], w) <==> w == []
  {
    var none: seq<string> := [];
    assert Cuts([], none) && Join(none) == [];
  }

  /** Cutting an item off a match leaves a match of the rest. */
  lemma {:induction false} HereSplit(it: Item, p: Pattern, text: string) returns (k: nat)
    requires MatchesHere(p.(items := [it] + p.items), text)
    ensures k <= |text| && Fits(it, text[..k]) && MatchesHere(p, text[k..])
  {
    var all := [it] + p.items;
    var j :| 0 <= j <= |text| && (p.atEnd ==> j == |text|) && InLang(all, text[..j]);
    k := LangSplit(it, p.items, text[..j]);
    hide InLang, Fits;
    assert text[..j][..k] == text[..k] && text[..j][k..] == text[k..][..j - k];
  }

  /** An item before a match of the rest makes a match. */
  lemma {:induction false} HereJoin(it: Item, p: Pattern, text: string, k: nat)
    requires k <= |text| && Fits(it, text[..k]) && MatchesHere(p, text[k..])
    ensures MatchesHere(p.(items := [it] + p.items), text)
  {
    hide InLang, Fits;
    var rest := text[k..];
    var j :| 0 <= j <= |rest| && (p.atEnd ==> j == |rest|) && InLang(p.items, rest[..j]);
    LangCons(it, p.items, text[..k], rest[..j]);
    assert text[..k] + rest[..j] == text[..k + j];
  }

  /** `it` matches some beginning of `text`, and `p` what follows. */
  ghost predicate Then(it: Item, p: Pattern, text: string) {
    exists k :: 0 <= k <= |text| && Fits(it, text[..k]) && MatchesHere(p, text[k..])
  }

  /** Matching an item and then the rest. */
  lemma {:induction false} HereCons(it: Item, p: Pattern, text: string)
    ensures MatchesHere(p.(items := [it] + p.items), text) <==> Then(it, p, text)
  {
    hide MatchesHere, Fits;
    if MatchesHere(p.(items := [it] + p.items), text) {
      var k := HereSplit(it, p, text);
      assert Then(it, p, text);
    }
    if Then(it, p, text) {
      var k :| 0 <= k <= |text| && Fits(it, text[..k]) && MatchesHere(p, text[k..]);
      HereJoin(it, p, text, k);
    }
  }

  lemma {:induction false} HereOne(s: Sym, p: Pattern, text: string)
    ensures MatchesHere(p.(items := [One(s)] + p.items), text)
            <==> text != [] && Accepts(s, text[0]) && MatchesHere(p, text[1..])
  {
    HereCons(One(s), p, text);
    if text != [] && Accepts(s, text[0]) && MatchesHere(p, text[1..]) {
      assert Fits(One(s), text[..1]);
    }
  }

  lemma {:induction false} HereNone(atEnd: bool, text: string)
    ensures MatchesHere(Pattern([], atEnd), text) <==> (atEnd ==> text == [])
  {
    LangEmpty([]);
    assert text[..0] == [];
    if MatchesHere(Pattern([], atEnd), text) && atEnd {
      LangEmpty(text);
      assert text[..|text|] == text;
    }
  }

  // ---------------------------------------------------------------- code

  /** matchhere(): does `re` match at the beginning of `text`? */
  method MatchHere(re: string, text: string) returns (b: bool)
    ensures b <==> MatchesHere(Decode(re), text)
    decreases |re|, 0
  {
    hide MatchesHere, InLang;
    if re == [] {
      HereNone(false, text);
      return true;
    }
    if |re| >= 2 && re[1] == '*' {
      HereCons(Star(SymOf(re[0])), Decode(re[2..]), text);
      b := MatchStar(re[0], re[2..], text);
      return;
    }
    if re[0] == '$' && |re| == 1 {
      HereNone(true, text);
      return text == [];
    }
    HereOne(SymOf(re[0]), Decode(re[1..]), text);
    if text != [] && (re[0] == '.' || re[0] == text[0]) {
      b := MatchHere(re[1..], text[1..]);
      return;
    }
    return false;
  }

  /** matchstar(): does `c*` followed by `re` match at the beginning of `text`? */
  method MatchStar(c: char, re: string, text: string) returns (b: bool)
    ensures b <==> Then(Star(SymOf(c)), Decode(re), text)
    decreases |re|, 1
  {
    hide MatchesHere, InLang, Decode;
    var i := 0;
    while true
      invariant 0 <= i <= |text|
      invariant Fits(Star(SymOf(c)), text[..i])
      invariant forall k :: 0 <= k < i ==> !MatchesHere(Decode(re), text[k..])
      decreases |text| - i
    {
      b := MatchHere(re, text[i..]);
      if b {
        return;
      }
      if !(i < |text| && (text[i] == c || c == '.')) {
        break;
      }
      i := i + 1;
    }
    assert forall k :: i < k <= |text| ==> !Fits(Star(SymOf(c)), text[..k]);
  }

  /** match(): does `re` match anywhere in `text`? */
  method Match(re: string, text: string) returns (b: bool)
    ensures b <==> Matches(re, text)
  {
    hide MatchesHere, Decode;
    if re != [] && re[0] == '^' {
      b := MatchHere(re[1..], text);
      return;
    }
    var i := 0;
    while true
      invariant 0 <= i <= |text|
      invariant forall k :: 0 <= k < i ==> !MatchesHere(Decode(re), text[k..])
      decreases |text| - i
    {
      b := MatchHere(re, text[i..]);
      if b {
        return;
      }
      if i == |text| {
        return;
      }
      i := i + 1;
    }
  }
}
