/** Gate expressions as text: a printer for boolean trees over comparisons, Python's boolean grammar
    (section 6.11 of the Python Language Reference), and the round trip through the evaluator. */
module DefersText {
  import opened Text
  import opened Defers

  /** A boolean expression over comparisons, in the shape Python's parser gives it. */
  datatype Tree = Cmp(path: string, want: string) | Neg(t: Tree) | All(ts: seq<Tree>) | Any(ts: seq<Tree>)

  predicate WellFormed(t: Tree) {
    match t
    case Cmp(path, want) =>
      path != "" && IdStart(path[0]) && (forall i :: 0 <= i < |path| ==> IdChar(path[i]))
      && (forall i :: 0 <= i < |want| ==> want[i] != '"')
    case Neg(x) => WellFormed(x)
    case All(ts) => |ts| >= 2 && forall i :: 0 <= i < |ts| ==> WellFormed(ts[i])
    case Any(ts) => |ts| >= 2 && forall i :: 0 <= i < |ts| ==> WellFormed(ts[i])
  }

  /** The direct meaning. */
  predicate Meaning(t: Tree, holds: Verdicts) {
    match t
    case Cmp(path, want) => holds(path, want)
    case Neg(x) => !Meaning(x, holds)
    case All(ts) => forall i :: 0 <= i < |ts| ==> Meaning(ts[i], holds)
    case Any(ts) => exists i :: 0 <= i < |ts| && Meaning(ts[i], holds)
  }

  // ---------------------------------------------------------------- printing

  /** How a comparison is written: as the manifest does, or as its truth value. */
  datatype Leaves = AsSource | AsLiteral(holds: Verdicts)

  function Leaf(path: string, want: string, leaves: Leaves): string {
    match leaves
    case AsSource => path + " == \"" + want + "\""
    case AsLiteral(holds) => Literal(holds(path, want))
  }

  /** Prints with the parentheses precedence asks for: level 0 for `or`, 1 for `and`, 2 for `not`. */
  function Show(t: Tree, level: nat, leaves: Leaves): string
    decreases t, 1
  {
    match t
    case Cmp(path, want) => Leaf(path, want, leaves)
    case Neg(x) => "not" + (" " + Show(x, 2, leaves))
    case All(ts) => Grouped(Join(ts, 2, "and", leaves), level <= 1)
    case Any(ts) => Grouped(Join(ts, 1, "or", leaves), level <= 0)
  }

  function Grouped(body: string, bare: bool): string {
    if bare then body else ['('] + body + [')']
  }

  /** The operands with the word between blanks. */
  function Join(ts: seq<Tree>, level: nat, word: string, leaves: Leaves): string
    decreases ts, 0
  {
    if ts == [] then ""
    else if |ts| == 1 then Show(ts[0], level, leaves)
    else Show(ts[0], level, leaves) + (Sep(word) + Join(ts[1..], level, word, leaves))
  }

  predicate Head(s: string) {
    s != "" && (IdStart(s[0]) || s[0] == '(')
  }

  /** Begins like an operand and does not end in a blank. */
  predicate Framed(s: string) {
    Head(s) && !IsSpace(s[|s| - 1])
  }

  lemma LeafHead(path: string, want: string, leaves: Leaves)
    requires path != "" && IdStart(path[0])
    ensures Framed(Leaf(path, want, leaves))
  {
    var s := Leaf(path, want, leaves);
    if leaves.AsSource? {
      assert s[0] == path[0] && s[|s| - 1] == '"';
    }
  }

  lemma NotHead(s: string)
    requires Framed(s)
    ensures Framed("not" + (" " + s))
  {
    var whole := "not" + (" " + s);
    assert whole[0] == 'n' && whole[|whole| - 1] == s[|s| - 1];
  }

  lemma {:induction false} ShowHead(t: Tree, level: nat, leaves: Leaves)
    requires WellFormed(t)
    ensures Framed(Show(t, level, leaves))
    decreases t, 1
  {
    match t
    case Cmp(path, want) => LeafHead(path, want, leaves);
    case Neg(x) =>
      ShowHead(x, 2, leaves);
      NotHead(Show(x, 2, leaves));
    case All(ts) => JoinHead(ts, 2, "and", leaves);
    case Any(ts) => JoinHead(ts, 1, "or", leaves);
  }

  lemma {:induction false} JoinHead(ts: seq<Tree>, level: nat, word: string, leaves: Leaves)
    requires ts != [] && forall i :: 0 <= i < |ts| ==> WellFormed(ts[i])
    ensures Framed(Join(ts, level, word, leaves))
    decreases ts, 0
  {
    ShowHead(ts[0], level, leaves);
    if |ts| > 1 {
      JoinHead(ts[1..], level, word, leaves);
    }
  }

  // ---------------------------------------------------------------- reducing a printed tree

  lemma {:induction false} IdRunIs(p: string, rest: string)
    requires forall i :: 0 <= i < |p| ==> IdChar(p[i])
    requires rest == "" || !IdChar(rest[0])
    ensures IdRun(p + rest) == |p|
  {
    if p == "" {
      assert p + rest == rest;
    } else {
      assert (p + rest)[1..] == p[1..] + rest;
      IdRunIs(p[1..], rest);
    }
  }

  lemma {:induction false} QuoteFreeIs(w: string, rest: string)
    requires forall i :: 0 <= i < |w| ==> w[i] != '"'
    requires rest != "" && rest[0] == '"'
    ensures QuoteFree(w + rest) == |w|
  {
    if w == "" {
      assert w + rest == rest;
    } else {
      assert (w + rest)[1..] == w[1..] + rest;
      QuoteFreeIs(w[1..], rest);
    }
  }

  lemma OneSpace(rest: string)
    requires rest != "" && !IsSpace(rest[0])
    ensures SpaceRun(" " + rest) == 1 && (" " + rest)[1..] == rest
  {
    assert (" " + rest)[1..] == rest;
  }

  lemma Assoc<T>(a: seq<T>, b: seq<T>, c: seq<T>)
    ensures a + b + c == a + (b + c)
  {
  }

  lemma Cut<T>(a: seq<T>, b: seq<T>)
    ensures (a + b)[|a|..] == b && (a + b)[..|a|] == a
  {
  }

  /** The text of a comparison, cut where the pattern cuts it. */
  function Cmp4(want: string, k: string): string { "\"" + (want + ("\"" + k)) }
  function Cmp2(want: string, k: string): string { "==" + (" " + Cmp4(want, k)) }

  lemma LeafText(path: string, want: string, k: string)
    ensures Leaf(path, want, AsSource) + k == path + (" " + Cmp2(want, k))
  {
    assert " == \"" == " " + ("==" + (" " + "\""));
  }

  lemma Cmp2Cuts(want: string, k: string)
    requires forall i :: 0 <= i < |want| ==> want[i] != '"'
    ensures var s2, s4 := Cmp2(want, k), Cmp4(want, k);
            && s2 != "" && s2[0] == '=' && "==" <= s2
            && s2[2..] == " " + s4
            && s4 != "" && s4[0] == '"'
            && QuoteFree(s4[1..]) == |want| && |s4| == |want| + |k| + 2
            && s4[1..][..|want|] == want
  {
    Cut("==", " " + Cmp4(want, k));
    var close := "\"" + k;
    Cut("\"", want + close);
    QuoteFreeIs(want, close);
    Cut(want, close);
  }

  /** A printed comparison matches, exactly. */
  lemma LeafMatches(path: string, want: string, k: string)
    requires WellFormed(Cmp(path, want))
    ensures MatchHere(Leaf(path, want, AsSource) + k) == Some(Match(path, want, |Leaf(path, want, AsSource)|))
  {
    var s2, s4 := Cmp2(want, k), Cmp4(want, k);
    var s1 := " " + s2;
    LeafText(path, want, k);
    Cmp2Cuts(want, k);
    IdRunIs(path, s1);
    Cut(path, s1);
    OneSpace(s2);
    OneSpace(s4);
  }

  lemma ReduceSkips(c: char, rest: string, holds: Verdicts)
    requires MatchHere([c] + rest) == None
    ensures Reduce([c] + rest, holds) == [c] + Reduce(rest, holds)
  {
    assert ([c] + rest)[1..] == rest;
  }

  lemma ReduceMatches(text: string, rest: string, m: Match, holds: Verdicts)
    requires MatchHere(text + rest) == Some(m) && m.size == |text|
    ensures Reduce(text + rest, holds) == Literal(holds(m.path, m.want)) + Reduce(rest, holds)
  {
    Cut(text, rest);
  }

  /** A word followed by a blank and an operand starts no comparison. */
  lemma WordIsNoMatch(w: string, rest: string)
    requires w != "" && forall i :: 0 <= i < |w| ==> IdStart(w[i])
    requires Head(rest)
    ensures MatchHere(w + (" " + rest)) == None
  {
    IdRunIs(w, " " + rest);
    Cut(w, " " + rest);
    OneSpace(rest);
  }

  lemma NoWord(rest: string)
    ensures "" + (" " + rest) == [' '] + rest
  {
  }

  lemma FirstChar(w: string, rest: string)
    requires w != ""
    ensures [w[0]] + (w[1..] + rest) == w + rest
  {
    assert w == [w[0]] + w[1..];
    Assoc([w[0]], w[1..], rest);
  }

  lemma WordHead(w: string, rest: string, holds: Verdicts)
    requires w != "" && forall i :: 0 <= i < |w| ==> IdStart(w[i])
    requires Head(rest)
    ensures Reduce(w + (" " + rest), holds) == [w[0]] + Reduce(w[1..] + (" " + rest), holds)
  {
    WordIsNoMatch(w, rest);
    FirstChar(w, " " + rest);
    ReduceSkips(w[0], w[1..] + (" " + rest), holds);
  }

  /** A keyword before a printed operand never starts a comparison, so it stays. */
  lemma {:induction false} ReduceWord(w: string, rest: string, holds: Verdicts)
    requires forall i :: 0 <= i < |w| ==> IdStart(w[i])
    requires Head(rest)
    ensures Reduce(w + (" " + rest), holds) == w + (" " + Reduce(rest, holds))
    decreases |w|
  {
    if w == "" {
      ReduceSkips(' ', rest, holds);
      NoWord(rest);
      NoWord(Reduce(rest, holds));
    } else {
      WordHead(w, rest, holds);
      ReduceWord(w[1..], rest, holds);
      FirstChar(w, " " + Reduce(rest, holds));
    }
  }

  lemma ReduceChar(c: char, rest: string, holds: Verdicts)
    requires !IdStart(c)
    ensures Reduce([c] + rest, holds) == [c] + Reduce(rest, holds)
  {
    ReduceSkips(c, rest, holds);
  }

  /** A separator is a blank, a keyword and a blank. */
  function Sep(word: string): string {
    [' '] + (word + " ")
  }

  predicate Word(word: string) {
    word != "" && forall i :: 0 <= i < |word| ==> IdStart(word[i])
  }

  lemma SepText(word: string, rest: string)
    ensures Sep(word) + rest == [' '] + (word + (" " + rest))
  {
    Assoc([' '], word + " ", rest);
    Assoc(word, " ", rest);
  }

  lemma ReduceSep(word: string, rest: string, holds: Verdicts)
    requires Word(word) && Head(rest)
    ensures Reduce(Sep(word) + rest, holds) == Sep(word) + Reduce(rest, holds)
  {
    SepText(word, rest);
    ReduceChar(' ', word + (" " + rest), holds);
    ReduceWord(word, rest, holds);
    SepText(word, Reduce(rest, holds));
  }

  /** Reducing the text of a tree writes the truth value of each comparison in its place. */
  lemma {:induction false} ReduceShow(t: Tree, level: nat, k: string, holds: Verdicts)
    requires WellFormed(t)
    ensures Reduce(Show(t, level, AsSource) + k, holds) == Show(t, level, AsLiteral(holds)) + Reduce(k, holds)
    decreases t, 2
  {
    match t
    case Cmp(path, want) =>
      LeafMatches(path, want, k);
      ReduceMatches(Leaf(path, want, AsSource), k, Match(path, want, |Leaf(path, want, AsSource)|), holds);
    case Neg(x) =>
      ReduceNeg(x, k, holds);
    case All(ts) =>
      ReduceGroup(ts, 2, "and", level <= 1, k, holds);
    case Any(ts) =>
      ReduceGroup(ts, 1, "or", level <= 0, k, holds);
  }

  lemma {:induction false} ReduceNeg(x: Tree, k: string, holds: Verdicts)
    requires WellFormed(x)
    ensures Reduce("not" + (" " + Show(x, 2, AsSource)) + k, holds) ==
            "not" + (" " + Show(x, 2, AsLiteral(holds))) + Reduce(k, holds)
    decreases x, 3
  {
    var src, lit := Show(x, 2, AsSource), Show(x, 2, AsLiteral(holds));
    ShowHead(x, 2, AsSource);
    Assoc("not", " " + src, k);
    Assoc(" ", src, k);
    ReduceWord("not", src + k, holds);
    ReduceShow(x, 2, k, holds);
    Assoc(" ", lit, Reduce(k, holds));
    Assoc("not", " " + lit, Reduce(k, holds));
  }

  lemma {:induction false} ReduceGroup(ts: seq<Tree>, level: nat, word: string, bare: bool, k: string, holds: Verdicts)
    requires ts != [] && Word(word) && forall i :: 0 <= i < |ts| ==> WellFormed(ts[i])
    ensures Reduce(Grouped(Join(ts, level, word, AsSource), bare) + k, holds) ==
            Grouped(Join(ts, level, word, AsLiteral(holds)), bare) + Reduce(k, holds)
    decreases ts, 1
  {
    var body, lit := Join(ts, level, word, AsSource), Join(ts, level, word, AsLiteral(holds));
    if bare {
      ReduceJoin(ts, level, word, k, holds);
    } else {
      GroupText(body, k);
      ReduceChar('(', body + ([')'] + k), holds);
      ReduceJoin(ts, level, word, [')'] + k, holds);
      ReduceChar(')', k, holds);
      GroupText(lit, Reduce(k, holds));
    }
  }

  lemma GroupText(body: string, k: string)
    ensures Grouped(body, false) + k == ['('] + (body + ([')'] + k))
  {
  }

  lemma JoinText(a: string, sep: string, b: string, k: string)
    ensures a + (sep + b) + k == a + (sep + (b + k))
  {
  }

  lemma {:induction false} ReduceJoin(ts: seq<Tree>, level: nat, word: string, k: string, holds: Verdicts)
    requires ts != [] && Word(word) && forall i :: 0 <= i < |ts| ==> WellFormed(ts[i])
    ensures Reduce(Join(ts, level, word, AsSource) + k, holds) ==
            Join(ts, level, word, AsLiteral(holds)) + Reduce(k, holds)
    decreases ts, 0
  {
    if |ts| == 1 {
      ReduceShow(ts[0], level, k, holds);
    } else {
      var rest := Join(ts[1..], level, word, AsSource);
      JoinHead(ts[1..], level, word, AsSource);
      JoinText(Show(ts[0], level, AsSource), Sep(word), rest, k);
      ReduceShow(ts[0], level, Sep(word) + (rest + k), holds);
      ReduceSep(word, rest + k, holds);
      ReduceJoin(ts[1..], level, word, k, holds);
      JoinText(Show(ts[0], level, AsLiteral(holds)), Sep(word), Join(ts[1..], level, word, AsLiteral(holds)),
               Reduce(k, holds));
    }
  }

  // ---------------------------------------------------------------- Python's boolean grammar

  datatype Tok = TTrue | TFalse | TAnd | TOr | TNot | TOpen | TClose

  function Keyword(w: string): Option<Tok> {
    if w == "True" then Some(TTrue) else if w == "False" then Some(TFalse)
    else if w == "and" then Some(TAnd) else if w == "or" then Some(TOr)
    else if w == "not" then Some(TNot) else None
  }

  function Prepend(tok: Tok, rest: Option<seq<Tok>>): Option<seq<Tok>> {
    match rest case None => None case Some(toks) => Some([tok] + toks)
  }

  /** Tokens of a text made of the five keywords, parentheses and blanks; None for any other text. */
  function Lex(s: string): Option<seq<Tok>>
    decreases |s|
  {
    if s == "" then Some([])
    else if s[0] == ' ' then Lex(s[1..])
    else if s[0] == '(' then Prepend(TOpen, Lex(s[1..]))
    else if s[0] == ')' then Prepend(TClose, Lex(s[1..]))
    else if !IdStart(s[0]) then None
    else
      RunsFit(s);
      var n := IdRun(s);
      match Keyword(s[..n])
      case None => None
      case Some(tok) => Prepend(tok, Lex(s[n..]))
  }

  type Parsed = Option<(Py, seq<Tok>)>

  predicate Shorter(r: Parsed, ts: seq<Tok>) {
    r.Some? ==> |r.value.1| < |ts|
  }

  /** or_test: and_test ('or' and_test)*, one flat node for the whole chain. */
  function ParseOr(ts: seq<Tok>): (r: Parsed)
    ensures Shorter(r, ts)
    decreases |ts|, 3
  {
    match ParseAnd(ts)
    case None => None
    case Some((x, rest)) =>
      match OrTail(rest)
      case None => None
      case Some((more, rest')) => Some((if more == [] then x else Or([x] + more), rest'))
  }

  function OrTail(ts: seq<Tok>): (r: Option<(seq<Py>, seq<Tok>)>)
    ensures r.Some? ==> |r.value.1| <= |ts|
    decreases |ts|, 0
  {
    if ts == [] || ts[0] != TOr then Some(([], ts))
    else match ParseAnd(ts[1..])
         case None => None
         case Some((x, rest)) =>
           match OrTail(rest)
           case None => None
           case Some((more, rest')) => Some(([x] + more, rest'))
  }

  /** and_test: not_test ('and' not_test)*. */
  function ParseAnd(ts: seq<Tok>): (r: Parsed)
    ensures Shorter(r, ts)
    decreases |ts|, 2
  {
    match ParseNot(ts)
    case None => None
    case Some((x, rest)) =>
      match AndTail(rest)
      case None => None
      case Some((more, rest')) => Some((if more == [] then x else And([x] + more), rest'))
  }

  function AndTail(ts: seq<Tok>): (r: Option<(seq<Py>, seq<Tok>)>)
    ensures r.Some? ==> |r.value.1| <= |ts|
    decreases |ts|, 0
  {
    if ts == [] || ts[0] != TAnd then Some(([], ts))
    else match ParseNot(ts[1..])
         case None => None
         case Some((x, rest)) =>
           match AndTail(rest)
           case None => None
           case Some((more, rest')) => Some(([x] + more, rest'))
  }

  /** not_test: 'not' not_test, or an atom: a literal or a parenthesised or_test. */
  function ParseNot(ts: seq<Tok>): (r: Parsed)
    ensures Shorter(r, ts)
    decreases |ts|, 1
  {
    if ts == [] then None
    else match ts[0]
         case TTrue => Some((Const(true), ts[1..]))
         case TFalse => Some((Const(false), ts[1..]))
         case TNot =>
           (match ParseNot(ts[1..]) case None => None case Some((x, rest)) => Some((Not(x), rest)))
         case TOpen =>
           (match ParseOr(ts[1..])
            case None => None
            case Some((x, rest)) => if rest != [] && rest[0] == TClose then Some((x, rest[1..])) else None)
         case _ => None
  }

  /** The part of Python's expression grammar this model fixes: texts that hold booleans only. */
  function ParseBool(s: string): Option<Py> {
    if s == "" || s[0] == ' ' then None
    else match Lex(s)
         case None => None
         case Some(toks) =>
           match ParseOr(toks)
           case None => None
           case Some((t, rest)) => if rest == [] then Some(t) else None
  }

  /** The parse tree a printed tree must come back as. */
  function Image(t: Tree, holds: Verdicts): Py
    decreases t, 1
  {
    match t
    case Cmp(path, want) => Const(holds(path, want))
    case Neg(x) => Not(Image(x, holds))
    case All(ts) => And(Images(ts, holds))
    case Any(ts) => Or(Images(ts, holds))
  }

  function Images(ts: seq<Tree>, holds: Verdicts): seq<Py>
    decreases ts, 0
  {
    if ts == [] then [] else [Image(ts[0], holds)] + Images(ts[1..], holds)
  }

  function Toks(t: Tree, level: nat, holds: Verdicts): seq<Tok>
    decreases t, 1
  {
    match t
    case Cmp(path, want) => [if holds(path, want) then TTrue else TFalse]
    case Neg(x) => [TNot] + Toks(x, 2, holds)
    case All(ts) =>
      if level <= 1 then JoinToks(ts, 2, TAnd, holds) else [TOpen] + JoinToks(ts, 2, TAnd, holds) + [TClose]
    case Any(ts) =>
      if level <= 0 then JoinToks(ts, 1, TOr, holds) else [TOpen] + JoinToks(ts, 1, TOr, holds) + [TClose]
  }

  function JoinToks(ts: seq<Tree>, level: nat, sep: Tok, holds: Verdicts): seq<Tok>
    decreases ts, 0
  {
    if ts == [] then []
    else if |ts| == 1 then Toks(ts[0], level, holds)
    else Toks(ts[0], level, holds) + ([sep] + JoinToks(ts[1..], level, sep, holds))
  }

  // ---------------------------------------------------------------- lexing a reduced tree

  /** A word that ends where no path character follows is lexed as one token. */
  lemma LexWord(w: string, tok: Tok, rest: string)
    requires Keyword(w) == Some(tok) && (rest == "" || !IdChar(rest[0]))
    ensures Lex(w + rest) == Prepend(tok, Lex(rest))
  {
    IdRunIs(w, rest);
    var s := w + rest;
    assert s[..|w|] == w && s[|w|..] == rest;
  }

  lemma LexChar(c: char, rest: string)
    ensures c == ' ' ==> Lex([c] + rest) == Lex(rest)
    ensures c == '(' ==> Lex([c] + rest) == Prepend(TOpen, Lex(rest))
    ensures c == ')' ==> Lex([c] + rest) == Prepend(TClose, Lex(rest))
  {
    assert ([c] + rest)[1..] == rest;
  }

  function Concat(toks: seq<Tok>, rest: Option<seq<Tok>>): Option<seq<Tok>> {
    match rest case None => None case Some(more) => Some(toks + more)
  }

  lemma ConcatStep(tok: Tok, toks: seq<Tok>, rest: Option<seq<Tok>>)
    ensures Prepend(tok, Concat(toks, rest)) == Concat([tok] + toks, rest)
  {
    if rest.Some? {
      assert [tok] + (toks + rest.value) == [tok] + toks + rest.value;
    }
  }

  lemma {:induction false} LexShow(t: Tree, level: nat, k: string, holds: Verdicts)
    requires WellFormed(t) && (k == "" || !IdChar(k[0]))
    ensures Lex(Show(t, level, AsLiteral(holds)) + k) == Concat(Toks(t, level, holds), Lex(k))
    decreases t, 2
  {
    match t
    case Cmp(path, want) =>
      var b := holds(path, want);
      LexWord(Literal(b), if b then TTrue else TFalse, k);
    case Neg(x) =>
      var body := Show(x, 2, AsLiteral(holds));
      Assoc("not", " " + body, k);
      Assoc(" ", body, k);
      LexWord("not", TNot, " " + (body + k));
      LexChar(' ', body + k);
      LexShow(x, 2, k, holds);
      ConcatStep(TNot, Toks(x, 2, holds), Lex(k));
    case All(ts) =>
      LexGroup(ts, 2, "and", TAnd, level <= 1, k, holds);
    case Any(ts) =>
      LexGroup(ts, 1, "or", TOr, level <= 0, k, holds);
  }

  lemma LexBrackets(body: string, toks: seq<Tok>, k: string)
    requires Lex(body + ([')'] + k)) == Concat(toks, Lex([')'] + k))
    ensures Lex(Grouped(body, false) + k) == Concat([TOpen] + toks + [TClose], Lex(k))
  {
    GroupText(body, k);
    LexChar('(', body + ([')'] + k));
    LexChar(')', k);
    if Lex(k).Some? {
      BracketToks(toks, Lex(k).value);
    }
  }

  lemma BracketToks(toks: seq<Tok>, rest: seq<Tok>)
    ensures [TOpen] + (toks + ([TClose] + rest)) == [TOpen] + toks + [TClose] + rest
  {
  }

  lemma {:induction false} LexGroup(ts: seq<Tree>, level: nat, word: string, tok: Tok, bare: bool,
                                    k: string, holds: Verdicts)
    requires ts != [] && Keyword(word) == Some(tok)
    requires forall i :: 0 <= i < |ts| ==> WellFormed(ts[i])
    requires k == "" || !IdChar(k[0])
    ensures var body, toks := Join(ts, level, word, AsLiteral(holds)), JoinToks(ts, level, tok, holds);
            Lex(Grouped(body, bare) + k) ==
            Concat(if bare then toks else [TOpen] + toks + [TClose], Lex(k))
    decreases ts, 1
  {
    var body, toks := Join(ts, level, word, AsLiteral(holds)), JoinToks(ts, level, tok, holds);
    if bare {
      LexJoin(ts, level, word, tok, k, holds);
    } else {
      LexJoin(ts, level, word, tok, [')'] + k, holds);
      LexBrackets(body, toks, k);
    }
  }

  lemma LexSep(word: string, tok: Tok, rest: string)
    requires Keyword(word) == Some(tok)
    ensures Lex(Sep(word) + rest) == Prepend(tok, Lex(rest))
  {
    SepText(word, rest);
    LexChar(' ', word + (" " + rest));
    LexWord(word, tok, " " + rest);
    LexChar(' ', rest);
  }

  lemma {:induction false} LexJoin(ts: seq<Tree>, level: nat, word: string, tok: Tok, k: string, holds: Verdicts)
    requires ts != [] && Keyword(word) == Some(tok)
    requires forall i :: 0 <= i < |ts| ==> WellFormed(ts[i])
    requires k == "" || !IdChar(k[0])
    ensures Lex(Join(ts, level, word, AsLiteral(holds)) + k) == Concat(JoinToks(ts, level, tok, holds), Lex(k))
    decreases ts, 0
  {
    var lit := AsLiteral(holds);
    if |ts| == 1 {
      LexShow(ts[0], level, k, holds);
    } else {
      var body := Join(ts[1..], level, word, lit);
      JoinText(Show(ts[0], level, lit), Sep(word), body, k);
      LexShow(ts[0], level, Sep(word) + (body + k), holds);
      LexSep(word, tok, body + k);
      LexJoin(ts[1..], level, word, tok, k, holds);
      ConcatJoin(Toks(ts[0], level, holds), tok, JoinToks(ts[1..], level, tok, holds), Lex(k));
    }
  }

  lemma ConcatJoin(a: seq<Tok>, tok: Tok, b: seq<Tok>, k: Option<seq<Tok>>)
    ensures Concat(a, Prepend(tok, Concat(b, k))) == Concat(a + ([tok] + b), k)
  {
    if k.Some? {
      assert a + ([tok] + (b + k.value)) == a + ([tok] + b) + k.value;
    }
  }

  // ---------------------------------------------------------------- parsing the tokens back

  predicate NotNext(k: seq<Tok>, tok: Tok) {
    k == [] || k[0] != tok
  }

  lemma {:induction false} ParseNotBack(t: Tree, k: seq<Tok>, holds: Verdicts)
    requires WellFormed(t)
    ensures ParseNot(Toks(t, 2, holds) + k) == Some((Image(t, holds), k))
    decreases t, 1
  {
    var ts := Toks(t, 2, holds) + k;
    match t
    case Cmp(_, _) =>
      assert ts[1..] == k;
    case Neg(x) =>
      assert ts[1..] == Toks(x, 2, holds) + k;
      ParseNotBack(x, k, holds);
    case All(xs) =>
      var inner := JoinToks(xs, 2, TAnd, holds);
      var close := [TClose] + k;
      assert ts[1..] == inner + close;
      AndChainBack(xs, close, holds);
      assert OrTail(close) == Some(([], close));
      assert close[1..] == k;
    case Any(xs) =>
      var inner := JoinToks(xs, 1, TOr, holds);
      var close := [TClose] + k;
      assert ts[1..] == inner + close;
      OrChainBack(xs, close, holds);
      assert close[1..] == k;
  }

  lemma {:induction false} ParseAndBack(t: Tree, k: seq<Tok>, holds: Verdicts)
    requires WellFormed(t) && NotNext(k, TAnd)
    ensures ParseAnd(Toks(t, 1, holds) + k) == Some((Image(t, holds), k))
    decreases t, 2
  {
    if t.All? {
      AndChainBack(t.ts, k, holds);
    } else {
      ParseNotBack(t, k, holds);
    }
  }

  lemma {:induction false} AndChainBack(xs: seq<Tree>, k: seq<Tok>, holds: Verdicts)
    requires |xs| >= 2 && (forall i :: 0 <= i < |xs| ==> WellFormed(xs[i])) && NotNext(k, TAnd)
    ensures ParseAnd(JoinToks(xs, 2, TAnd, holds) + k) == Some((And(Images(xs, holds)), k))
    decreases xs, 3
  {
    var tail := [TAnd] + JoinToks(xs[1..], 2, TAnd, holds) + k;
    assert JoinToks(xs, 2, TAnd, holds) + k == Toks(xs[0], 2, holds) + tail;
    ParseNotBack(xs[0], tail, holds);
    AndTailBack(xs[1..], k, holds);
  }

  lemma {:induction false} AndTailBack(xs: seq<Tree>, k: seq<Tok>, holds: Verdicts)
    requires xs != [] && (forall i :: 0 <= i < |xs| ==> WellFormed(xs[i])) && NotNext(k, TAnd)
    ensures AndTail([TAnd] + JoinToks(xs, 2, TAnd, holds) + k) == Some((Images(xs, holds), k))
    decreases xs, 2
  {
    var ts := [TAnd] + JoinToks(xs, 2, TAnd, holds) + k;
    var next := if |xs| == 1 then k else [TAnd] + JoinToks(xs[1..], 2, TAnd, holds) + k;
    assert ts[1..] == Toks(xs[0], 2, holds) + next;
    ParseNotBack(xs[0], next, holds);
    if |xs| > 1 {
      AndTailBack(xs[1..], k, holds);
    } else {
      assert AndTail(k) == Some(([], k));
      assert xs[1..] == [];
    }
  }

  lemma {:induction false} OrChainBack(xs: seq<Tree>, k: seq<Tok>, holds: Verdicts)
    requires |xs| >= 2 && (forall i :: 0 <= i < |xs| ==> WellFormed(xs[i]))
    requires NotNext(k, TAnd) && NotNext(k, TOr)
    ensures ParseOr(JoinToks(xs, 1, TOr, holds) + k) == Some((Or(Images(xs, holds)), k))
    decreases xs, 3
  {
    var tail := [TOr] + JoinToks(xs[1..], 1, TOr, holds) + k;
    assert JoinToks(xs, 1, TOr, holds) + k == Toks(xs[0], 1, holds) + tail;
    ParseAndBack(xs[0], tail, holds);
    OrTailBack(xs[1..], k, holds);
  }

  lemma {:induction false} OrTailBack(xs: seq<Tree>, k: seq<Tok>, holds: Verdicts)
    requires xs != [] && (forall i :: 0 <= i < |xs| ==> WellFormed(xs[i]))
    requires NotNext(k, TAnd) && NotNext(k, TOr)
    ensures OrTail([TOr] + JoinToks(xs, 1, TOr, holds) + k) == Some((Images(xs, holds), k))
    decreases xs, 2
  {
    var ts := [TOr] + JoinToks(xs, 1, TOr, holds) + k;
    var next := if |xs| == 1 then k else [TOr] + JoinToks(xs[1..], 1, TOr, holds) + k;
    assert ts[1..] == Toks(xs[0], 1, holds) + next;
    ParseAndBack(xs[0], next, holds);
    if |xs| > 1 {
      OrTailBack(xs[1..], k, holds);
    } else {
      assert OrTail(k) == Some(([], k));
      assert xs[1..] == [];
    }
  }

  lemma ParseOrBack(t: Tree, holds: Verdicts)
    requires WellFormed(t)
    ensures ParseOr(Toks(t, 0, holds)) == Some((Image(t, holds), []))
  {
    assert Toks(t, 0, holds) + [] == Toks(t, 0, holds);
    if t.Any? {
      OrChainBack(t.ts, [], holds);
    } else {
      assert Toks(t, 0, holds) == Toks(t, 1, holds);
      ParseAndBack(t, [], holds);
    }
  }

  lemma {:induction false} ImageMeans(t: Tree, holds: Verdicts)
    ensures Whitelisted(Image(t, holds)) && Truth(Image(t, holds)) == Meaning(t, holds)
    decreases t, 1
  {
    match t
    case Cmp(_, _) =>
    case Neg(x) => ImageMeans(x, holds);
    case All(ts) => ImagesMean(ts, holds);
    case Any(ts) => ImagesMean(ts, holds);
  }

  lemma {:induction false} ImagesMean(ts: seq<Tree>, holds: Verdicts)
    ensures |Images(ts, holds)| == |ts|
    ensures forall i :: 0 <= i < |ts| ==>
              Whitelisted(Images(ts, holds)[i]) && Truth(Images(ts, holds)[i]) == Meaning(ts[i], holds)
    decreases ts, 0
  {
    if ts != [] {
      ImageMeans(ts[0], holds);
      ImagesMean(ts[1..], holds);
      assert forall i :: 0 < i < |ts| ==> ts[i] == ts[1..][i - 1];
    }
  }

  lemma ShownTrimmed(t: Tree, leaves: Leaves)
    requires WellFormed(t)
    ensures Show(t, 0, leaves) != "" && Strip(Show(t, 0, leaves)) == Show(t, 0, leaves)
    ensures Show(t, 0, leaves)[0] != ' '
  {
    ShowHead(t, 0, leaves);
    StripEnds(Show(t, 0, leaves));
  }

  lemma ReducedText(t: Tree, holds: Verdicts)
    requires WellFormed(t)
    ensures Reduce(Show(t, 0, AsSource), holds) == Show(t, 0, AsLiteral(holds))
  {
    var text, reduced := Show(t, 0, AsSource), Show(t, 0, AsLiteral(holds));
    ReduceShow(t, 0, "", holds);
    assert text + "" == text && reduced + "" == reduced;
    assert Reduce("", holds) == "";
  }

  lemma LiteralParses(t: Tree, holds: Verdicts)
    requires WellFormed(t)
    ensures ParseBool(Show(t, 0, AsLiteral(holds))) == Some(Image(t, holds))
  {
    var reduced, toks := Show(t, 0, AsLiteral(holds)), Toks(t, 0, holds);
    ShownTrimmed(t, AsLiteral(holds));
    LexShow(t, 0, "", holds);
    assert reduced + "" == reduced && toks + [] == toks;
    assert Lex(reduced) == Some(toks);
    ParseOrBack(t, holds);
  }

  /** The text of a tree reduces and parses to the tree's image. */
  lemma ReducedParses(t: Tree, holds: Verdicts)
    requires WellFormed(t)
    ensures var text := Show(t, 0, AsSource);
            && text != "" && Strip(text) == text
            && var reduced := Strip(Reduce(text, holds));
               reduced != "" && ParseBool(reduced) == Some(Image(t, holds))
  {
    ShownTrimmed(t, AsSource);
    ShownTrimmed(t, AsLiteral(holds));
    ReducedText(t, holds);
    LiteralParses(t, holds);
  }

  /** ROUND TRIP. For every boolean tree over comparisons, printing it, reducing the comparisons in the
      text, parsing with any parser that follows Python's grammar on boolean texts, and walking the
      result gives the tree's direct meaning. */
  lemma PrintedTreeMeans(t: Tree, intake: Option<Intake>, parse: string -> Option<Py>)
    requires WellFormed(t)
    requires forall s :: ParseBool(s).Some? ==> parse(s) == ParseBool(s)
    ensures Evaluate(Expr(Show(t, 0, AsSource)), intake, parse) == Meaning(t, Answers(intake))
  {
    ReducedParses(t, Answers(intake));
    ImageMeans(t, Answers(intake));
    OpensExactly(Show(t, 0, AsSource), intake, parse);
  }

  /** The codes of the characters a path is made of: digits and the dot, but not in front; letters; underscores. */
  predicate PathText(path: string) {
    && path != ""
    && (forall i :: 0 <= i < |path| ==>
          var code := path[i] as int;
          code == 46 || 48 <= code <= 57 || 65 <= code <= 90 || code == 95 || 97 <= code <= 122)
    && path[0] as int != 46 && !(48 <= path[0] as int <= 57)
  }

  lemma PathsExactly(path: string, want: string)
    ensures WellFormed(Cmp(path, want)) <==> PathText(path) && '"' !in want
  {
  }

  /** A single comparison opens the gate exactly when it holds. */
  lemma ComparisonGate(path: string, want: string, intake: Option<Intake>, parse: string -> Option<Py>)
    requires PathText(path) && '"' !in want
    requires forall s :: ParseBool(s).Some? ==> parse(s) == ParseBool(s)
    ensures Evaluate(Expr(path + " == \"" + want + "\""), intake, parse) <==> Holds(intake, path, want)
  {
    PathsExactly(path, want);
    PrintedTreeMeans(Cmp(path, want), intake, parse);
    assert Show(Cmp(path, want), 0, AsSource) == path + " == \"" + want + "\"";
  }

  const CHECKOUT := "intake." + "want_sales_checkout"

  lemma CheckoutPath()
    ensures PathText(CHECKOUT)
  {
  }

  lemma YesText()
    ensures Lower(Strip("yes")) == "yes" && '"' !in "yes"
  {
    assert Trimmed("yes");
    StripEnds("yes");
    assert Lower("yes") == "yes";
  }

  /** The gate of the checkout page, as the manifest writes it, opens exactly when the client's answer is yes. */
  lemma CheckoutGate(intake: Option<Intake>, parse: string -> Option<Py>)
    requires forall s :: ParseBool(s).Some? ==> parse(s) == ParseBool(s)
    ensures Evaluate(Expr(CHECKOUT + " == \"" + "yes" + "\""), intake, parse) <==>
            Resolve(intake, "want_sales_checkout") == Some("yes")
  {
    CheckoutPath();
    YesText();
    ComparisonGate(CHECKOUT, "yes", intake, parse);
    ComparisonExactly(intake, "want_sales_checkout", "yes");
  }
}
