/** Round trips: any sentence of the shell's grammar, spelled out and parsed, gives its tree; so does any tree printed
    with every compound command in parentheses; and spacing does not matter. */
module ShellRoundTrip {
  import opened Shell
  import opened ShellStrings
  import opened ShellGrammar

  // ---------- spelling

  ghost predicate TokOk(k: Tok) {
    match k case W(w) => IsWord(w) case S(c) => c in "<>+|&;()"
  }

  ghost predicate ToksOk(toks: seq<Tok>) {
    forall i | 0 <= i < |toks| :: TokOk(toks[i])
  }

  function Text(k: Tok): string {
    match k case W(w) => w case S(c) => if c == '+' then ">>" else [c]
  }

  /** Every token followed by a blank. */
  function Spell(toks: seq<Tok>): string {
    if toks == [] then [] else Text(toks[0]) + " " + Spell(toks[1..])
  }

  lemma SpellStart(toks: seq<Tok>)
    requires ToksOk(toks)
    ensures toks != [] ==> |Spell(toks)| > 0 && !Ws(Spell(toks)[0])
  {
    if toks != [] {
      assert TokOk(toks[0]);
      assert Spell(toks)[0] == Text(toks[0])[0];
    }
  }

  lemma NoSkip(t: string, s: nat)
    requires s <= |t| && !Ws(At(t, s))
    ensures SkipWs(t, s) == s
  {
  }

  lemma OneSpace(t: string, s: nat)
    requires s < |t| && t[s] == ' ' && !Ws(At(t, s + 1))
    ensures SkipWs(t, s) == s + 1
  {
  }

  /** k stands at s, with a blank after it. */
  ghost predicate Stands(t: string, s: nat, k: Tok) {
    var n := |Text(k)|;
    s + n < |t| && t[s..s + n] == Text(k) && t[s + n] == ' ' && !Ws(At(t, s + n + 1))
  }

  lemma CharAt(t: string, s: nat, k: Tok, i: nat)
    requires Stands(t, s, k) && i < |Text(k)|
    ensures t[s + i] == Text(k)[i]
  {
    assert t[s..s + |Text(k)|][i] == Text(k)[i];
  }

  lemma WordStands(t: string, s: nat, w: string)
    requires IsWord(w) && Stands(t, s, W(w))
    ensures GetToken(t, s) == Token('a', s, s + |w|, s + |w| + 1) && Slice(t, s, s + |w|) == w
  {
    CharAt(t, s, W(w), 0);
    NoSkip(t, s);
    OneSpace(t, s + |w|);
    var e := WordEnd(t, s);
    if e < s + |w| {
      CharAt(t, s, W(w), e - s);
    }
    assert Ws(t[s + |w|]);
  }

  lemma SignStands(t: string, s: nat, c: char)
    requires TokOk(S(c)) && Stands(t, s, S(c))
    ensures var k := GetToken(t, s); k.kind == c && k.next == s + |Text(S(c))| + 1
  {
    CharAt(t, s, S(c), 0);
    NoSkip(t, s);
    if c == '+' {
      CharAt(t, s, S(c), 1);
    }
    OneSpace(t, s + |Text(S(c))|);
  }

  lemma TokStands(t: string, s: nat, k: Tok)
    requires TokOk(k) && Stands(t, s, k)
    ensures var g := GetToken(t, s); g.kind != '\0' && TokOf(t, g) == k && g.next == s + |Text(k)| + 1
  {
    hide GetToken, Slice, IsWord;
    match k
    case W(w) => WordStands(t, s, w);
    case S(c) => SignStands(t, s, c);
  }

  /** The tokens of spelled tokens are the tokens. */
  lemma {:induction false} LexSpell(pre: string, toks: seq<Tok>)
    requires ToksOk(toks)
    ensures Lex(pre + Spell(toks), |pre|) == toks
    decreases |toks|
  {
    hide GetToken, TokOk, Text;
    var t := pre + Spell(toks);
    if toks == [] {
      assert t == pre;
      LexEnd(t);
    } else {
      var pre' := pre + (Text(toks[0]) + " ");
      assert t == pre' + Spell(toks[1..]);
      SpellStart(toks[1..]);
      FirstStands(pre, toks);
      TokStands(t, |pre|, toks[0]);
      LexSpell(pre', toks[1..]);
    }
  }

  lemma FirstStands(pre: string, toks: seq<Tok>)
    requires toks != [] && (toks[1..] != [] ==> |Spell(toks[1..])| > 0 && !Ws(Spell(toks[1..])[0]))
    ensures Stands(pre + Spell(toks), |pre|, toks[0])
  {
    var w, rest := Text(toks[0]), Spell(toks[1..]);
    assert toks[1..] == [] ==> rest == [];
    assert pre + (w + " " + rest) == pre + (w + (" " + rest));
    StandsIn(pre, toks[0], w, rest);
  }

  lemma StandsIn(pre: string, k: Tok, w: string, rest: string)
    requires w == Text(k) && (rest != [] ==> !Ws(rest[0]))
    ensures Stands(pre + (w + (" " + rest)), |pre|, k)
  {
    hide Text;
    var t := pre + (w + (" " + rest));
    assert t[|pre|..|pre| + |w|] == w;
    assert t[|pre| + |w|] == ' ' && (rest != [] ==> t[|pre| + |w| + 1] == rest[0]);
  }

  lemma {:induction false} SpellNoNul(toks: seq<Tok>)
    requires ToksOk(toks)
    ensures NoNul(Spell(toks))
    decreases |toks|
  {
    if toks != [] {
      assert TokOk(toks[0]);
      SpellNoNul(toks[1..]);
    }
  }

  // ---------- sentences are spelled with good tokens

  lemma ToksOkJoin(a: seq<Tok>, b: seq<Tok>)
    requires ToksOk(a) && ToksOk(b)
    ensures ToksOk(a + b)
  {
    hide TokOk;
  }

  lemma SignOk(c: char)
    requires c in "<>+|&;()"
    ensures ToksOk([S(c)])
  {
  }

  lemma {:induction false} RedirectsToksOk(rds: seq<Redirect>)
    requires RedirectsOk(rds)
    ensures ToksOk(RedirectsToks(rds))
    decreases |rds|
  {
    hide IsWord;
    if rds != [] {
      assert IsWord(rds[0].file);
      RedirectsToksOk(rds[1..]);
      assert ToksOk(RedirectToks(rds[0]));
      ToksOkJoin(RedirectToks(rds[0]), RedirectsToks(rds[1..]));
    }
  }

  lemma {:induction false} ItemsToksOk(items: seq<Item>)
    requires ItemsOk(items)
    ensures ToksOk(ItemsToks(items))
    decreases |items|
  {
    hide IsWord;
    if items != [] {
      TailOk(items, [items[0]], items[1..]);
      ItemsToksOk(items[1..]);
      assert IsWord(match items[0] case Arg(w) => w case Rd(r) => r.file);
      assert ToksOk(ItemToks(items[0]));
      ToksOkJoin(ItemToks(items[0]), ItemsToks(items[1..]));
    }
  }

  lemma {:induction false} ElemToksOk(e: Elem)
    requires ElemOk(e)
    ensures ToksOk(ElemToks(e))
  {
    hide ToksOk, ItemsOk, RedirectsOk;
    match e
    case Simple(items) => ItemsToksOk(items);
    case Block(line, rds) =>
      LineToksOk(line);
      RedirectsToksOk(rds);
      SignOk('(');
      SignOk(')');
      ToksOkJoin([S('(')], LineToks(line));
      ToksOkJoin([S('(')] + LineToks(line), [S(')')]);
      ToksOkJoin([S('(')] + LineToks(line) + [S(')')], RedirectsToks(rds));
  }

  lemma {:induction false} PipeToksOk(p: Pipeline)
    requires PipeOk(p)
    ensures ToksOk(PipeToks(p))
  {
    hide ToksOk;
    match p
    case One(e) => ElemToksOk(e);
    case More(e, q) =>
      ElemToksOk(e);
      PipeToksOk(q);
      SignOk('|');
      ToksOkJoin(ElemToks(e), [S('|')]);
      ToksOkJoin(ElemToks(e) + [S('|')], PipeToks(q));
  }

  lemma {:induction false} LineToksOk(line: Line)
    requires LineOk(line)
    ensures ToksOk(LineToks(line))
  {
    PipeToksOk(line.p);
    assert ToksOk(Signs('&', line.backs));
    assert ToksOk([]);
    hide ToksOk;
    ToksOkJoin(PipeToks(line.p), Signs('&', line.backs));
    var front := PipeToks(line.p) + Signs('&', line.backs);
    match line.rest
    case Nothing => ToksOkJoin(front, []);
    case After(l) =>
      LineToksOk(l);
      SignOk(';');
      ToksOkJoin([S(';')], LineToks(l));
      ToksOkJoin(front, [S(';')] + LineToks(l));
  }

  // ---------- the round trips

  /** Any sentence, spelled out, parses to the command it stands for: words with redirections before, between and after
      them, pipelines, lists, background commands and blocks. */
  lemma SentenceRoundTrip(line: Line)
    requires LineOk(line)
    ensures var t := Spell(LineToks(line)); ParseCmd(t).Ok? && Denote(t, ParseCmd(t).cmd) == LineTree(line)
  {
    hide ParseCmd, Denote, LineTree, NoNul, Spell, ToksOk, LineOk;
    var toks := LineToks(line);
    LineToksOk(line);
    SpellNoNul(toks);
    LexSpell([], toks);
    assert [] + Spell(toks) == Spell(toks);
    ParseComplete(Spell(toks), line);
  }

  /** At most 9 words to a command, all of them free of blanks and symbols. */
  ghost predicate Printable(c: Tree) {
    match c
    case Words(args) => |args| < MAXARGS && forall i | 0 <= i < |args| :: IsWord(args[i])
    case Onto(d, file, _) => Printable(d) && IsWord(file)
    case Piped(l, r) => Printable(l) && Printable(r)
    case Then(l, r) => Printable(l) && Printable(r)
    case Behind(d) => Printable(d)
  }

  function WordItems(args: seq<string>): seq<Item> {
    seq(|args|, i requires 0 <= i < |args| => Arg(args[i]))
  }

  function Alone(e: Elem): Line { Line(One(e), 0, Nothing) }

  function Parens(line: Line): Elem { Block(line, []) }

  /** A sentence for c with every compound command in parentheses. */
  function Full(c: Tree): Line {
    match c
    case Words(args) => Alone(Simple(WordItems(args)))
    case Onto(d, file, mode) => Alone(Block(Full(d), [Redirect(mode, file)]))
    case Piped(l, r) => Line(More(Parens(Full(l)), One(Parens(Full(r)))), 0, Nothing)
    case Then(l, r) => Line(One(Parens(Full(l))), 0, After(Alone(Parens(Full(r)))))
    case Behind(d) => Line(One(Parens(Full(d))), 1, Nothing)
  }

  lemma {:induction false} WordItemsIs(args: seq<string>)
    ensures ArgsOf(WordItems(args)) == args && RedirectsOf(WordItems(args)) == []
    decreases |args|
  {
    if args != [] {
      assert WordItems(args)[1..] == WordItems(args[1..]);
      WordItemsIs(args[1..]);
    }
  }

  lemma ParensIs(l: Line)
    ensures ElemTree(Parens(l)) == LineTree(l) && (ElemOk(Parens(l)) <==> LineOk(l))
  {
  }

  lemma OntoIs(l: Line, r: Redirect)
    ensures ElemTree(Block(l, [r])) == Onto(LineTree(l), r.file, r.mode)
    ensures ElemOk(Block(l, [r])) <==> LineOk(l) && IsWord(r.file)
  {
    RedirectedSnoc(LineTree(l), [], r);
    assert [] + [r] == [r];
  }

  lemma AloneIs(e: Elem)
    ensures LineTree(Alone(e)) == ElemTree(e) && (LineOk(Alone(e)) <==> ElemOk(e))
  {
  }

  lemma {:induction false} FullTree(c: Tree)
    ensures LineTree(Full(c)) == c
  {
    match c
    case Words(args) =>
      WordItemsIs(args);
      AloneIs(Simple(WordItems(args)));
    case Onto(d, file, mode) =>
      FullTree(d);
      OntoIs(Full(d), Redirect(mode, file));
      AloneIs(Block(Full(d), [Redirect(mode, file)]));
    case Piped(l, r) =>
      FullTree(l);
      FullTree(r);
      ParensIs(Full(l));
      ParensIs(Full(r));
      assert PipeTree(One(Parens(Full(r)))) == r;
    case Then(l, r) =>
      FullTree(l);
      FullTree(r);
      ParensIs(Full(l));
      ParensIs(Full(r));
      AloneIs(Parens(Full(r)));
      assert PipeTree(One(Parens(Full(l)))) == l;
    case Behind(d) =>
      FullTree(d);
      ParensIs(Full(d));
      assert Backs(d, 1) == Behind(d);
  }

  lemma {:induction false} FullOk(c: Tree)
    requires Printable(c)
    ensures LineOk(Full(c))
  {
    hide IsWord;
    match c
    case Words(args) =>
      WordItemsIs(args);
      AloneIs(Simple(WordItems(args)));
    case Onto(d, file, mode) =>
      FullOk(d);
      OntoIs(Full(d), Redirect(mode, file));
      AloneIs(Block(Full(d), [Redirect(mode, file)]));
    case Piped(l, r) =>
      FullOk(l);
      FullOk(r);
      ParensIs(Full(l));
      ParensIs(Full(r));
      assert PipeOk(One(Parens(Full(r))));
    case Then(l, r) =>
      FullOk(l);
      FullOk(r);
      ParensIs(Full(l));
      ParensIs(Full(r));
      AloneIs(Parens(Full(r)));
      assert PipeOk(One(Parens(Full(l))));
    case Behind(d) =>
      FullOk(d);
      ParensIs(Full(d));
  }

  function Print(c: Tree): string {
    Spell(LineToks(Full(c)))
  }

  /** Parsing the fully parenthesised text of a command tree yields that tree and leaves nothing over. */
  lemma RoundTrip(c: Tree)
    requires Printable(c)
    ensures ParseCmd(Print(c)).Ok? && Denote(Print(c), ParseCmd(Print(c)).cmd) == c
  {
    hide ParseCmd, Denote, LineTree, LineOk, Spell, Full;
    FullOk(c);
    FullTree(c);
    SentenceRoundTrip(Full(c));
  }

  // ---------- every parsed command

  lemma WordSlice(t: string, q: nat, eq: nat)
    requires NoNul(t) && Word(t, q, eq)
    ensures IsWord(Slice(t, q, eq))
  {
  }

  lemma {:induction false} DenotePrintable(t: string, c: Cmd)
    requires NoNul(t) && AllWords(t, c)
    ensures Printable(Denote(t, c))
  {
    hide NoNul, Word, IsWord, Slice;
    match c
    case Exec(args) =>
      forall i | 0 <= i < |args| ensures IsWord(Slice(t, args[i].0, args[i].1)) {
        assert args[i] in Places(c);
        WordSlice(t, args[i].0, args[i].1);
      }
    case Redir(d, q, eq, _) =>
      assert (q, eq) in Places(c);
      WordSlice(t, q, eq);
      DenotePrintable(t, d);
    case Pipe(l, r) => DenotePrintable(t, l); DenotePrintable(t, r);
    case List(l, r) => DenotePrintable(t, l); DenotePrintable(t, r);
    case Back(d) => DenotePrintable(t, d);
  }

  /** Whatever a line parses to can be printed, and the printed line parses to the same. */
  lemma ParsePrintParse(t: string)
    requires NoNul(t) && ParseCmd(t).Ok?
    ensures var c := Denote(t, ParseCmd(t).cmd);
      Printable(c) && ParseCmd(Print(c)).Ok? && Denote(Print(c), ParseCmd(Print(c)).cmd) == c
  {
    LineWords(t, 0);
    hide ParseLine, Print, Denote, NoNul, AllWords, Printable;
    DenotePrintable(t, ParseCmd(t).cmd);
    RoundTrip(Denote(t, ParseCmd(t).cmd));
  }

  /** Texts with the same tokens parse alike. */
  lemma SpacingIrrelevant(t: string, u: string)
    requires NoNul(t) && NoNul(u) && Lex(t, 0) == Lex(u, 0)
    ensures ParseCmd(t).Ok? <==> ParseCmd(u).Ok?
    ensures ParseCmd(t).Ok? ==> Denote(t, ParseCmd(t).cmd) == Denote(u, ParseCmd(u).cmd)
  {
    hide ParseCmd, Denote, NoNul, Lex;
    if ParseCmd(t).Ok? {
      var line := ParseSound(t);
      ParseComplete(u, line);
    }
    if ParseCmd(u).Ok? {
      var line := ParseSound(u);
      ParseComplete(t, line);
    }
  }
}
