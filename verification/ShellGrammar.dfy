/** The shell's language as a grammar over tokens, with the command tree that each sentence stands for; the parser
    accepts exactly the sentences and builds exactly their trees. */
module ShellGrammar {
  import opened Shell
  import opened ShellStrings

  // ---------- trees

  /** A command with its words spelled out. */
  datatype Tree =
    | Words(args: seq<string>)
    | Onto(cmd: Tree, file: string, mode: Mode)
    | Piped(left: Tree, right: Tree)
    | Then(left: Tree, right: Tree)
    | Behind(cmd: Tree)

  function Slice(t: string, q: nat, eq: nat): string {
    if q <= eq <= |t| then t[q..eq] else []
  }

  function SlicesOf(t: string, args: seq<(nat, nat)>): seq<string> {
    seq(|args|, i requires 0 <= i < |args| => Slice(t, args[i].0, args[i].1))
  }

  /** What a parsed command says, given the text. */
  ghost function Denote(t: string, c: Cmd): Tree {
    match c
    case Exec(args) => Words(SlicesOf(t, args))
    case Redir(d, q, eq, mode) => Onto(Denote(t, d), Slice(t, q, eq), mode)
    case Pipe(l, r) => Piped(Denote(t, l), Denote(t, r))
    case List(l, r) => Then(Denote(t, l), Denote(t, r))
    case Back(d) => Behind(Denote(t, d))
  }

  // ---------- tokens

  /** A word, or a sign: one of < > | & ; ( ) or + for >>. */
  datatype Tok = W(w: string) | S(c: char)

  function TokOf(t: string, k: Token): Tok {
    if k.kind == 'a' then W(Slice(t, k.q, k.eq)) else S(k.kind)
  }

  /** The tokens of the text from s on. */
  function Lex(t: string, s: nat): seq<Tok>
    requires s <= |t|
    decreases |t| - s
  {
    var k := GetToken(t, s);
    if k.kind == '\0' then [] else [TokOf(t, k)] + Lex(t, k.next)
  }

  ghost predicate IsWord(w: string) {
    |w| > 0 && forall i | 0 <= i < |w| :: WordChar(w[i])
  }

  // ---------- the grammar

  datatype Redirect = Redirect(mode: Mode, file: string)

  /** Words and redirections come in any order. */
  datatype Item = Arg(w: string) | Rd(r: Redirect)

  datatype Elem = Simple(items: seq<Item>) | Block(line: Line, rds: seq<Redirect>)

  datatype Pipeline = One(e: Elem) | More(e: Elem, p: Pipeline)

  /** A pipeline, how many & follow it, and the line after a semicolon if there is one. */
  datatype Line = Line(p: Pipeline, backs: nat, rest: Rest)

  datatype Rest = Nothing | After(line: Line)

  function SignOf(m: Mode): char {
    match m case In => '<' case Out => '>' case Append => '+'
  }

  function RedirectToks(r: Redirect): seq<Tok> { [S(SignOf(r.mode)), W(r.file)] }

  function RedirectsToks(rds: seq<Redirect>): seq<Tok> {
    if rds == [] then [] else RedirectToks(rds[0]) + RedirectsToks(rds[1..])
  }

  function ItemToks(x: Item): seq<Tok> {
    match x case Arg(w) => [W(w)] case Rd(r) => RedirectToks(r)
  }

  function ItemsToks(items: seq<Item>): seq<Tok> {
    if items == [] then [] else ItemToks(items[0]) + ItemsToks(items[1..])
  }

  function Signs(c: char, n: nat): seq<Tok> { seq(n, _ => S(c)) }

  function ElemToks(e: Elem): seq<Tok> {
    match e
    case Simple(items) => ItemsToks(items)
    case Block(line, rds) => [S('(')] + LineToks(line) + [S(')')] + RedirectsToks(rds)
  }

  function PipeToks(p: Pipeline): seq<Tok> {
    match p
    case One(e) => ElemToks(e)
    case More(e, q) => ElemToks(e) + [S('|')] + PipeToks(q)
  }

  function LineToks(line: Line): seq<Tok> {
    PipeToks(line.p) + Signs('&', line.backs) + RestToks(line.rest)
  }

  function RestToks(r: Rest): seq<Tok> {
    match r case Nothing => [] case After(line) => [S(';')] + LineToks(line)
  }

  // ---------- what a sentence stands for

  function ArgsOf(items: seq<Item>): seq<string> {
    if items == [] then [] else (if items[0].Arg? then [items[0].w] else []) + ArgsOf(items[1..])
  }

  function RedirectsOf(items: seq<Item>): seq<Redirect> {
    if items == [] then [] else (if items[0].Rd? then [items[0].r] else []) + RedirectsOf(items[1..])
  }

  /** The redirections around c, the first one next to it. */
  function Redirected(c: Tree, rds: seq<Redirect>): Tree
    decreases |rds|
  {
    if rds == [] then c else Redirected(Onto(c, rds[0].file, rds[0].mode), rds[1..])
  }

  function Backs(c: Tree, n: nat): Tree {
    if n == 0 then c else Behind(Backs(c, n - 1))
  }

  function ElemTree(e: Elem): Tree {
    match e
    case Simple(items) => Redirected(Words(ArgsOf(items)), RedirectsOf(items))
    case Block(line, rds) => Redirected(LineTree(line), rds)
  }

  function PipeTree(p: Pipeline): Tree {
    match p
    case One(e) => ElemTree(e)
    case More(e, q) => Piped(ElemTree(e), PipeTree(q))
  }

  function LineTree(line: Line): Tree {
    var c := Backs(PipeTree(line.p), line.backs);
    match line.rest case Nothing => c case After(l) => Then(c, LineTree(l))
  }

  /** Words are words, and a simple command has at most 9. */
  ghost predicate ElemOk(e: Elem) {
    match e
    case Simple(items) => |ArgsOf(items)| < MAXARGS && ItemsOk(items)
    case Block(line, rds) => LineOk(line) && RedirectsOk(rds)
  }

  ghost predicate ItemsOk(items: seq<Item>) {
    forall i | 0 <= i < |items| :: IsWord(match items[i] case Arg(w) => w case Rd(r) => r.file)
  }

  ghost predicate RedirectsOk(rds: seq<Redirect>) {
    forall i | 0 <= i < |rds| :: IsWord(rds[i].file)
  }

  ghost predicate PipeOk(p: Pipeline) {
    match p case One(e) => ElemOk(e) case More(e, q) => ElemOk(e) && PipeOk(q)
  }

  ghost predicate LineOk(line: Line) {
    PipeOk(line.p) && match line.rest case Nothing => true case After(l) => LineOk(l)
  }

  // ---------- tokens and the parser's tests

  /** The next token is one of these signs. */
  predicate Heads(toks: seq<Tok>, cs: string) {
    toks != [] && toks[0].S? && toks[0].c in cs
  }

  lemma LexSkip(t: string, s: nat)
    requires s <= |t|
    ensures GetToken(t, SkipWs(t, s)) == GetToken(t, s) && Lex(t, SkipWs(t, s)) == Lex(t, s)
  {
    SkipTwice(t, s);
  }

  lemma SkipTwice(t: string, s: nat)
    requires s <= |t|
    ensures SkipWs(t, SkipWs(t, s)) == SkipWs(t, s)
  {
  }

  /** gettoken takes the next token off. */
  lemma LexNext(t: string, s: nat)
    requires s <= |t|
    ensures var k := GetToken(t, SkipWs(t, s));
      if k.kind == '\0' then Lex(t, s) == []
      else s < k.next && Lex(t, s) == [TokOf(t, k)] + Lex(t, k.next) && Lex(t, k.next) == Lex(t, s)[1..]
  {
    LexSkip(t, s);
  }

  /** peek for signs other than redirections. */
  lemma PeekSign(t: string, s: nat, cs: string)
    requires s <= |t| && forall i | 0 <= i < |cs| :: Symbol(cs[i]) && cs[i] != '>'
    ensures Peek(t, s, cs) <==> Heads(Lex(t, s), cs)
    ensures Peek(t, s, cs) ==> GetToken(t, SkipWs(t, s)).kind == Lex(t, s)[0].c
  {
    LexSkip(t, s);
    SkipTwice(t, s);
    var c := At(t, SkipWs(t, s));
    assert c in cs ==> Symbol(c) && c != '>';
  }

  /** peek for redirections. */
  lemma PeekRedirect(t: string, s: nat)
    requires s <= |t|
    ensures Peek(t, s, "<>") <==> Heads(Lex(t, s), "<>+")
    ensures Peek(t, s, "<>") ==> GetToken(t, SkipWs(t, s)).kind == Lex(t, s)[0].c
  {
    LexSkip(t, s);
    SkipTwice(t, s);
  }

  /** A word is a word. */
  lemma WordOf(t: string, s: nat)
    requires s <= |t| && NoNul(t)
    ensures var k := GetToken(t, s); k.kind == 'a' <==> (k.kind != '\0' && TokOf(t, k).W?)
    ensures var k := GetToken(t, s); k.kind == 'a' ==> IsWord(Slice(t, k.q, k.eq))
  {
  }

  // ---------- sequences of items

  lemma {:induction false} RedirectsToksSplit(a: seq<Redirect>, b: seq<Redirect>)
    ensures RedirectsToks(a + b) == RedirectsToks(a) + RedirectsToks(b)
    decreases |a|
  {
    if a == [] {
      assert a + b == b;
    } else {
      RedirectsToksSplit(a[1..], b);
      assert (a + b)[0] == a[0] && (a + b)[1..] == a[1..] + b;
    }
  }

  lemma Front<T>(a: seq<T>, b: seq<T>)
    requires a != []
    ensures (a + b)[0] == a[0] && (a + b)[1..] == a[1..] + b
  {
  }

  lemma {:induction false} ItemsToksSplit(a: seq<Item>, b: seq<Item>)
    ensures ItemsToks(a + b) == ItemsToks(a) + ItemsToks(b)
    decreases |a|
  {
    hide ItemToks;
    if a == [] {
      assert a + b == b;
    } else {
      ItemsToksSplit(a[1..], b);
      Front(a, b);
    }
  }

  lemma {:induction false} ArgsOfSplit(a: seq<Item>, b: seq<Item>)
    ensures ArgsOf(a + b) == ArgsOf(a) + ArgsOf(b)
    decreases |a|
  {
    if a == [] {
      assert a + b == b;
    } else {
      ArgsOfSplit(a[1..], b);
      Front(a, b);
    }
  }

  lemma {:induction false} RedirectsOfSplit(a: seq<Item>, b: seq<Item>)
    ensures RedirectsOf(a + b) == RedirectsOf(a) + RedirectsOf(b)
    decreases |a|
  {
    if a == [] {
      assert a + b == b;
    } else {
      RedirectsOfSplit(a[1..], b);
      Front(a, b);
    }
  }

  lemma ItemsSplit(a: seq<Item>, b: seq<Item>)
    ensures ItemsToks(a + b) == ItemsToks(a) + ItemsToks(b)
    ensures ArgsOf(a + b) == ArgsOf(a) + ArgsOf(b) && RedirectsOf(a + b) == RedirectsOf(a) + RedirectsOf(b)
  {
    hide ItemsToks, ArgsOf, RedirectsOf;
    ItemsToksSplit(a, b);
    ArgsOfSplit(a, b);
    RedirectsOfSplit(a, b);
  }

  /** Redirections as items. */
  function AsItems(rds: seq<Redirect>): seq<Item> {
    seq(|rds|, i requires 0 <= i < |rds| => Rd(rds[i]))
  }

  lemma AsItemsFirst(rds: seq<Redirect>)
    ensures rds == [] ==> AsItems(rds) == []
    ensures rds != [] ==> AsItems(rds) == [Rd(rds[0])] + AsItems(rds[1..])
  {
  }

  lemma {:induction false} AsItemsIs(rds: seq<Redirect>)
    ensures ItemsToks(AsItems(rds)) == RedirectsToks(rds)
    ensures ArgsOf(AsItems(rds)) == [] && RedirectsOf(AsItems(rds)) == rds
    decreases |rds|
  {
    hide AsItems;
    AsItemsFirst(rds);
    if rds != [] {
      AsItemsIs(rds[1..]);
      assert AsItems(rds)[1..] == AsItems(rds[1..]);
      assert rds == [rds[0]] + rds[1..];
    }
  }

  lemma {:induction false} RedirectedSnoc(c: Tree, rds: seq<Redirect>, r: Redirect)
    ensures Redirected(c, rds + [r]) == Onto(Redirected(c, rds), r.file, r.mode)
    decreases |rds|
  {
    if rds == [] {
      assert (rds + [r])[1..] == [];
    } else {
      assert (rds + [r])[0] == rds[0] && (rds + [r])[1..] == rds[1..] + [r];
      RedirectedSnoc(Onto(c, rds[0].file, rds[0].mode), rds[1..], r);
    }
  }

  // ---------- what the parser found

  function Said(t: string, list: seq<Redirection>): seq<Redirect> {
    seq(|list|, i requires 0 <= i < |list| => Redirect(list[i].mode, Slice(t, list[i].q, list[i].eq)))
  }

  lemma SaidSplit(t: string, a: seq<Redirection>, b: seq<Redirection>)
    ensures Said(t, a + b) == Said(t, a) + Said(t, b)
  {
  }

  lemma ArgsSnoc(t: string, args: seq<(nat, nat)>, p: (nat, nat))
    ensures SlicesOf(t, args + [p]) == SlicesOf(t, args) + [Slice(t, p.0, p.1)]
  {
  }

  lemma {:induction false} WrapIs(t: string, c: Cmd, list: seq<Redirection>)
    ensures Denote(t, Wrap(c, list)) == Redirected(Denote(t, c), Said(t, list))
    decreases |list|
  {
    if list != [] {
      var n := |list| - 1;
      WrapIs(t, c, list[..n]);
      assert Said(t, list) == Said(t, list[..n]) + [Said(t, list)[n]];
      RedirectedSnoc(Denote(t, c), Said(t, list[..n]), Said(t, list)[n]);
    }
  }

  // ---------- the parser builds only sentences

  lemma ModeSign(c: char)
    requires c == '<' || c == '>' || c == '+'
    ensures SignOf(ModeOf(c)) == c
  {
  }

  /** The redirections found are the ones that come next, all of them. */
  ghost predicate FoundRedirs(t: string, s: nat, r: Redirections) {
    && r.Redirs? && s <= |t| && r.at <= |t| && RedirectsOk(Said(t, r.list))
    && Lex(t, s) == RedirectsToks(Said(t, r.list)) + Lex(t, r.at) && !Heads(Lex(t, r.at), "<>+")
  }

  lemma {:induction false} RedirsSound(t: string, s: nat)
    requires s <= |t| && NoNul(t)
    ensures ParseRedirs(t, s).Redirs? ==> FoundRedirs(t, s, ParseRedirs(t, s))
    decreases |t| - s
  {
    hide Lex, GetToken, IsWord, NoNul, Slice, FoundRedirs, Peek;
    PeekRedirect(t, s);
    LexSkip(t, s);
    if !Peek(t, s, "<>") {
      NoRedirects(t, s, SkipWs(t, s));
    } else {
      LexNext(t, s);
      var a := GetToken(t, SkipWs(t, s));
      LexNext(t, a.next);
      LexSkip(t, a.next);
      WordOf(t, a.next);
      var b := GetToken(t, a.next);
      if b.kind == 'a' {
        RedirsSound(t, b.next);
        ModeSign(a.kind);
        var rest := ParseRedirs(t, b.next);
        if rest.Redirs? {
          MoreRedirects(t, s, Redirection(b.q, b.eq, ModeOf(a.kind)), b.next, rest);
        }
      }
    }
  }

  lemma NoRedirects(t: string, s: nat, at: nat)
    requires s <= |t| && at <= |t| && Lex(t, at) == Lex(t, s) && !Heads(Lex(t, at), "<>+")
    ensures FoundRedirs(t, s, Redirs([], at))
  {
    hide Lex;
    assert Said(t, []) == [];
  }

  lemma MoreRedirects(t: string, s: nat, r: Redirection, at: nat, rest: Redirections)
    requires s <= |t| && at <= |t| && IsWord(Slice(t, r.q, r.eq)) && FoundRedirs(t, at, rest)
    requires Lex(t, s) == [S(SignOf(r.mode)), W(Slice(t, r.q, r.eq))] + Lex(t, at)
    ensures FoundRedirs(t, s, Redirs([r] + rest.list, rest.at))
  {
    hide Lex, IsWord, Slice;
    var x, list := Redirect(r.mode, Slice(t, r.q, r.eq)), Said(t, rest.list);
    assert Said(t, [r] + rest.list) == [x] + list;
    Front([x], list);
    assert RedirectsToks([x] + list) == RedirectToks(x) + RedirectsToks(list);
  }

  /** What the loop of parseexec finds. */
  ghost predicate FoundArgs(t: string, s: nat, args: seq<(nat, nat)>, rs: seq<Redirection>, r: Outcome,
                            items: seq<Item>) {
    && s <= |t| && r.Ok? && r.pos <= |t| && Lex(t, s) == ItemsToks(items) + Lex(t, r.pos)
    && Denote(t, r.cmd) == Redirected(Words(SlicesOf(t, args) + ArgsOf(items)), Said(t, rs) + RedirectsOf(items))
    && |args| + |ArgsOf(items)| < MAXARGS && ItemsOk(items)
  }

  lemma ArgsEnd(t: string, s: nat, args: seq<(nat, nat)>, rs: seq<Redirection>, pos: nat)
    requires s <= |t| && pos <= |t| && |args| < MAXARGS && Lex(t, pos) == Lex(t, s)
    ensures FoundArgs(t, s, args, rs, Ok(Wrap(Exec(args), rs), pos), [])
  {
    hide Lex, Wrap;
    WrapIs(t, Exec(args), rs);
    assert SlicesOf(t, args) + [] == SlicesOf(t, args) && Said(t, rs) + [] == Said(t, rs);
  }

  lemma {:induction false} ArgsSound(t: string, s: nat, args: seq<(nat, nat)>, rs: seq<Redirection>)
    returns (items: seq<Item>)
    requires s <= |t| && NoNul(t) && |args| < MAXARGS
    ensures ParseArgs(t, s, args, rs).Ok? ==> FoundArgs(t, s, args, rs, ParseArgs(t, s, args, rs), items)
    decreases |t| - s
  {
    hide Lex, GetToken, IsWord, NoNul, Slice, Wrap, FoundArgs, ParseRedirs, FoundRedirs, Peek;
    items := [];
    LexSkip(t, s);
    LexNext(t, s);
    var p := SkipWs(t, s);
    var tok := GetToken(t, p);
    if Peek(t, s, "|)&;") {
      ArgsEnd(t, s, args, rs, p);
    } else if tok.kind == '\0' {
      EndToken(t, p);
      ArgsEnd(t, s, args, rs, tok.next);
    } else if tok.kind == 'a' && |args| + 1 < MAXARGS {
      var more := ParseRedirs(t, tok.next);
      if more.Redirs? {
        RedirsSound(t, tok.next);
        WordOf(t, p);
        var rest := ArgsSound(t, more.at, args + [(tok.q, tok.eq)], rs + more.list);
        items := [Arg(Slice(t, tok.q, tok.eq))] + AsItems(Said(t, more.list)) + rest;
        if ParseArgs(t, s, args, rs).Ok? {
          ArgsStep(t, s, args, rs, tok, more, rest, ParseArgs(t, s, args, rs));
        }
      }
    }
  }

  lemma EndToken(t: string, p: nat)
    requires p <= |t| && GetToken(t, p).kind == '\0' && NoNul(t)
    ensures Lex(t, GetToken(t, p).next) == Lex(t, p)
  {
    LexSkip(t, p);
  }

  lemma ArgsStep(t: string, s: nat, args: seq<(nat, nat)>, rs: seq<Redirection>, tok: Token, more: Redirections,
      rest: seq<Item>, r: Outcome)
    requires s <= |t| && tok.next <= |t| && FoundRedirs(t, tok.next, more)
    requires Lex(t, s) == [W(Slice(t, tok.q, tok.eq))] + Lex(t, tok.next) && IsWord(Slice(t, tok.q, tok.eq))
    requires FoundArgs(t, more.at, args + [(tok.q, tok.eq)], rs + more.list, r, rest)
    ensures FoundArgs(t, s, args, rs, r, [Arg(Slice(t, tok.q, tok.eq))] + AsItems(Said(t, more.list)) + rest)
  {
    hide Lex, IsWord, Slice, Redirected, SlicesOf, Said, ItemsToks, ArgsOf, RedirectsOf, RedirectsToks, AsItems, Denote;
    var w, rds := Slice(t, tok.q, tok.eq), Said(t, more.list);
    var items := [Arg(w)] + AsItems(rds) + rest;
    ArgsSnoc(t, args, (tok.q, tok.eq));
    SaidSplit(t, rs, more.list);
    AsItemsIs(rds);
    OneArg(w);
    ItemsSplit([Arg(w)] + AsItems(rds), rest);
    ItemsSplit([Arg(w)], AsItems(rds));
    var x, y := SlicesOf(t, args), Said(t, rs);
    assert x + ArgsOf(items) == x + [w] + ArgsOf(rest);
    assert y + RedirectsOf(items) == y + rds + RedirectsOf(rest);
    ItemsOkJoin(w, rds, rest);
  }

  lemma ItemsOkJoin(w: string, rds: seq<Redirect>, rest: seq<Item>)
    requires IsWord(w) && RedirectsOk(rds) && ItemsOk(rest)
    ensures ItemsOk([Arg(w)] + AsItems(rds) + rest) && ItemsOk(AsItems(rds) + rest)
  {
    hide IsWord;
  }

  lemma OneArg(w: string)
    ensures ItemsToks([Arg(w)]) == [W(w)] && ArgsOf([Arg(w)]) == [w] && RedirectsOf([Arg(w)]) == []
  {
    assert [Arg(w)][1..] == [];
  }

  ghost predicate FoundElem(t: string, s: nat, r: Outcome, e: Elem) {
    && s <= |t| && r.Ok? && r.pos <= |t| && ElemOk(e)
    && Lex(t, s) == ElemToks(e) + Lex(t, r.pos) && Denote(t, r.cmd) == ElemTree(e)
  }

  ghost predicate FoundPipe(t: string, s: nat, r: Outcome, p: Pipeline) {
    && s <= |t| && r.Ok? && r.pos <= |t| && PipeOk(p)
    && Lex(t, s) == PipeToks(p) + Lex(t, r.pos) && Denote(t, r.cmd) == PipeTree(p)
  }

  ghost predicate FoundLine(t: string, s: nat, r: Outcome, line: Line) {
    && s <= |t| && r.Ok? && r.pos <= |t| && LineOk(line)
    && Lex(t, s) == LineToks(line) + Lex(t, r.pos) && Denote(t, r.cmd) == LineTree(line)
  }

  lemma SimpleFound(t: string, s: nat, rs: Redirections, r: Outcome, items: seq<Item>)
    requires FoundRedirs(t, s, rs) && FoundArgs(t, rs.at, [], rs.list, r, items)
    ensures FoundElem(t, s, r, Simple(AsItems(Said(t, rs.list)) + items))
  {
    hide Lex, Redirected, Said, ItemsToks, ArgsOf, RedirectsOf, RedirectsToks, AsItems, Denote;
    var rds := Said(t, rs.list);
    AsItemsIs(rds);
    ItemsSplit(AsItems(rds), items);
    ItemsOkBoth(rds, items);
    assert SlicesOf(t, []) + ArgsOf(items) == ArgsOf(items) && [] + ArgsOf(items) == ArgsOf(items);
  }

  lemma ItemsOkBoth(rds: seq<Redirect>, rest: seq<Item>)
    requires RedirectsOk(rds) && ItemsOk(rest)
    ensures ItemsOk(AsItems(rds) + rest)
  {
    hide IsWord;
  }

  lemma BlockFound(t: string, s: nat, at: nat, a: Outcome, line: Line, after: nat, rs: Redirections)
    requires s <= |t| && at <= |t| && Lex(t, s) == [S('(')] + Lex(t, at) && FoundLine(t, at, a, line)
    requires after <= |t| && Lex(t, a.pos) == [S(')')] + Lex(t, after) && FoundRedirs(t, after, rs)
    ensures FoundElem(t, s, Ok(Wrap(a.cmd, rs.list), rs.at), Block(line, Said(t, rs.list)))
  {
    hide Lex, Redirected, Said, LineToks, LineTree, RedirectsToks, Denote, Wrap, LineOk;
    WrapIs(t, a.cmd, rs.list);
  }

  lemma MorePipe(t: string, s: nat, a: Outcome, e: Elem, at: nat, b: Outcome, p: Pipeline)
    requires FoundElem(t, s, a, e) && at <= |t| && Lex(t, a.pos) == [S('|')] + Lex(t, at) && FoundPipe(t, at, b, p)
    ensures FoundPipe(t, s, Ok(Pipe(a.cmd, b.cmd), b.pos), More(e, p))
  {
    hide Lex, ElemToks, ElemTree, ElemOk;
  }

  ghost predicate FoundBacks(t: string, s: nat, c: Cmd, r: (Cmd, nat), n: nat) {
    && s <= |t| && r.1 <= |t| && Lex(t, s) == Signs('&', n) + Lex(t, r.1) && !Heads(Lex(t, r.1), "&")
    && Denote(t, r.0) == Backs(Denote(t, c), n)
  }

  lemma {:induction false} BacksTwice(c: Tree, n: nat)
    ensures Backs(Behind(c), n) == Backs(c, n + 1)
    decreases n
  {
    if n > 0 {
      BacksTwice(c, n - 1);
    }
  }

  lemma MoreBacks(t: string, s: nat, c: Cmd, at: nat, r: (Cmd, nat), n: nat)
    requires s <= |t| && at <= |t| && Lex(t, s) == [S('&')] + Lex(t, at) && FoundBacks(t, at, Back(c), r, n)
    ensures FoundBacks(t, s, c, r, n + 1)
  {
    hide Lex, Backs;
    BacksTwice(Denote(t, c), n);
    assert Signs('&', n + 1) == [S('&')] + Signs('&', n);
    hide Signs;
    Join(Lex(t, s), [S('&')], Lex(t, at), Signs('&', n), Lex(t, r.1));
  }

  lemma NoBacks(t: string, s: nat, c: Cmd, at: nat)
    requires s <= |t| && at <= |t| && Lex(t, at) == Lex(t, s) && !Heads(Lex(t, s), "&")
    ensures FoundBacks(t, s, c, (c, at), 0)
  {
    hide Lex;
  }

  lemma {:induction false} BacksSound(t: string, s: nat, c: Cmd) returns (n: nat)
    requires s <= |t|
    ensures FoundBacks(t, s, c, ParseBacks(t, s, c), n)
    decreases |t| - s
  {
    hide Lex, GetToken, Peek, FoundBacks, SkipWs;
    LexSkip(t, s);
    PeekSign(t, s, "&");
    if Peek(t, s, "&") {
      LexNext(t, s);
      var at := GetToken(t, SkipWs(t, s)).next;
      n := BacksSound(t, at, Back(c));
      MoreBacks(t, s, c, at, ParseBacks(t, at, Back(c)), n);
      n := n + 1;
    } else {
      n := 0;
      NoBacks(t, s, c, SkipWs(t, s));
    }
  }

  lemma Join<T>(x: seq<T>, a: seq<T>, y: seq<T>, b: seq<T>, z: seq<T>)
    requires x == a + y && y == b + z
    ensures x == a + b + z
  {
  }

  lemma PlainLine(p: Pipeline, n: nat)
    ensures LineToks(Line(p, n, Nothing)) == PipeToks(p) + Signs('&', n)
    ensures LineTree(Line(p, n, Nothing)) == Backs(PipeTree(p), n) && (PipeOk(p) ==> LineOk(Line(p, n, Nothing)))
  {
    hide PipeToks, Signs;
    assert PipeToks(p) + Signs('&', n) + [] == PipeToks(p) + Signs('&', n);
  }

  lemma LineFound(t: string, s: nat, a: Outcome, p: Pipeline, c: (Cmd, nat), n: nat)
    requires FoundPipe(t, s, a, p) && FoundBacks(t, a.pos, a.cmd, c, n)
    ensures FoundLine(t, s, Ok(c.0, SkipWs(t, c.1)), Line(p, n, Nothing))
  {
    LexSkip(t, c.1);
    hide Lex, PipeToks, PipeTree, PipeOk, Signs, Backs, LineToks, LineTree, LineOk, SkipWs;
    PlainLine(p, n);
    Join(Lex(t, s), PipeToks(p), Lex(t, a.pos), Signs('&', n), Lex(t, c.1));
  }

  lemma LongLine(p: Pipeline, n: nat, rest: Line)
    ensures LineToks(Line(p, n, After(rest))) == PipeToks(p) + Signs('&', n) + ([S(';')] + LineToks(rest))
    ensures LineTree(Line(p, n, After(rest))) == Then(Backs(PipeTree(p), n), LineTree(rest))
    ensures PipeOk(p) && LineOk(rest) ==> LineOk(Line(p, n, After(rest)))
  {
    hide PipeToks, Signs;
  }

  lemma ListFound(t: string, s: nat, a: Outcome, p: Pipeline, c: (Cmd, nat), n: nat, at: nat, b: Outcome, rest: Line)
    requires FoundPipe(t, s, a, p) && FoundBacks(t, a.pos, a.cmd, c, n)
    requires at <= |t| && Lex(t, c.1) == [S(';')] + Lex(t, at) && FoundLine(t, at, b, rest)
    ensures FoundLine(t, s, Ok(List(c.0, b.cmd), b.pos), Line(p, n, After(rest)))
  {
    hide Lex, PipeToks, PipeTree, PipeOk, Signs, Backs, LineToks, LineTree, LineOk;
    LongLine(p, n, rest);
    Join(Lex(t, s), PipeToks(p), Lex(t, a.pos), Signs('&', n), Lex(t, c.1));
    Join(Lex(t, c.1), [S(';')], Lex(t, at), LineToks(rest), Lex(t, b.pos));
    Join(Lex(t, s), PipeToks(p) + Signs('&', n), Lex(t, c.1), [S(';')] + LineToks(rest), Lex(t, b.pos));
  }

  lemma {:induction false} LineSound(t: string, s: nat) returns (line: Line)
    requires s <= |t| && NoNul(t)
    ensures ParseLine(t, s).Ok? ==> FoundLine(t, s, ParseLine(t, s), line)
    decreases |t| - s, 3
  {
    hide Lex, GetToken, Peek, NoNul, ParsePipe, ParseBacks, FoundPipe, FoundLine, FoundBacks;
    var p := PipeSound(t, s);
    line := Line(p, 0, Nothing);
    var a := ParsePipe(t, s);
    if a.Ok? {
      var n := BacksSound(t, a.pos, a.cmd);
      var c := ParseBacks(t, a.pos, a.cmd);
      PeekSign(t, c.1, ";");
      if Peek(t, c.1, ";") {
        LexNext(t, c.1);
        var at := GetToken(t, SkipWs(t, c.1)).next;
        var rest := LineSound(t, at);
        line := Line(p, n, After(rest));
        if ParseLine(t, at).Ok? {
          ListFound(t, s, a, p, c, n, at, ParseLine(t, at), rest);
        }
      } else {
        line := Line(p, n, Nothing);
        LineFound(t, s, a, p, c, n);
      }
    }
  }

  lemma {:induction false} PipeSound(t: string, s: nat) returns (p: Pipeline)
    requires s <= |t| && NoNul(t)
    ensures ParsePipe(t, s).Ok? ==> FoundPipe(t, s, ParsePipe(t, s), p)
    decreases |t| - s, 2
  {
    hide Lex, GetToken, Peek, NoNul, ParseExec, FoundElem, ElemToks, ElemTree, ElemOk;
    var e := ElemSound(t, s);
    p := One(e);
    var a := ParseExec(t, s);
    if a.Ok? {
      PeekSign(t, a.pos, "|");
      if Peek(t, a.pos, "|") {
        LexNext(t, a.pos);
        var at := GetToken(t, SkipWs(t, a.pos)).next;
        var q := PipeSound(t, at);
        p := More(e, q);
        if ParsePipe(t, at).Ok? {
          MorePipe(t, s, a, e, at, ParsePipe(t, at), q);
        }
      } else {
        LexSkip(t, a.pos);
        assert FoundElem(t, s, Ok(a.cmd, SkipWs(t, a.pos)), e) by { ElemSkip(t, s, a, e); }
        OnePipe(t, s, Ok(a.cmd, SkipWs(t, a.pos)), e);
      }
    }
  }

  lemma ElemSkip(t: string, s: nat, a: Outcome, e: Elem)
    requires FoundElem(t, s, a, e)
    ensures FoundElem(t, s, Ok(a.cmd, SkipWs(t, a.pos)), e)
  {
    LexSkip(t, a.pos);
    hide Lex;
  }

  lemma OnePipe(t: string, s: nat, r: Outcome, e: Elem)
    requires FoundElem(t, s, r, e)
    ensures FoundPipe(t, s, r, One(e))
  {
  }

  lemma {:induction false} ElemSound(t: string, s: nat) returns (e: Elem)
    requires s <= |t| && NoNul(t)
    ensures ParseExec(t, s).Ok? ==> FoundElem(t, s, ParseExec(t, s), e)
    decreases |t| - s, 1
  {
    hide Lex, GetToken, Peek, NoNul, ParseBlock, ParseArgs, ParseRedirs, FoundElem, FoundArgs, FoundRedirs;
    if Peek(t, s, "(") {
      e := BlockSound(t, SkipWs(t, s));
      LexSkip(t, s);
      if ParseExec(t, s).Ok? {
        ElemFrom(t, SkipWs(t, s), s, ParseExec(t, s), e);
      }
    } else {
      RedirsSound(t, s);
      var rs := ParseRedirs(t, s);
      e := Simple([]);
      if rs.Redirs? {
        var items := ArgsSound(t, rs.at, [], rs.list);
        e := Simple(AsItems(Said(t, rs.list)) + items);
        if ParseExec(t, s).Ok? {
          SimpleFound(t, s, rs, ParseExec(t, s), items);
        }
      }
    }
  }

  lemma ElemFrom(t: string, s: nat, s': nat, r: Outcome, e: Elem)
    requires FoundElem(t, s, r, e) && s' <= |t| && Lex(t, s') == Lex(t, s)
    ensures FoundElem(t, s', r, e)
  {
  }

  lemma {:induction false} BlockSound(t: string, s: nat) returns (e: Elem)
    requires s <= |t| && NoNul(t)
    ensures ParseBlock(t, s).Ok? ==> FoundElem(t, s, ParseBlock(t, s), e)
    decreases |t| - s, 0
  {
    hide Lex, GetToken, Peek, NoNul, ParseLine, ParseRedirs, FoundElem, FoundLine, FoundRedirs, Wrap;
    PeekSign(t, s, "(");
    e := Simple([]);
    if Peek(t, s, "(") {
      LexNext(t, s);
      var at := GetToken(t, SkipWs(t, s)).next;
      var line := LineSound(t, at);
      var a := ParseLine(t, at);
      if a.Ok? {
        PeekSign(t, a.pos, ")");
        if Peek(t, a.pos, ")") {
          LexNext(t, a.pos);
          var after := GetToken(t, SkipWs(t, a.pos)).next;
          RedirsSound(t, after);
          var rs := ParseRedirs(t, after);
          if rs.Redirs? {
            e := Block(line, Said(t, rs.list));
            BlockFound(t, s, at, a, line, after, rs);
          }
        }
      }
    }
  }

  /** Whatever the parser accepts is a sentence, all of it, and the command built is the one it stands for. */
  lemma ParseSound(t: string) returns (line: Line)
    requires NoNul(t) && ParseCmd(t).Ok?
    ensures LineOk(line) && Lex(t, 0) == LineToks(line) && Denote(t, ParseCmd(t).cmd) == LineTree(line)
  {
    hide Lex, NoNul, ParseLine, Denote, LineTree, LineToks, LineOk;
    line := LineSound(t, 0);
    var a := ParseLine(t, 0);
    LexSkip(t, a.pos);
    LexEnd(t);
  }

  lemma LexEnd(t: string)
    ensures Lex(t, |t|) == []
  {
  }

  // ---------- the parser accepts every sentence

  /** What may follow a command, a pipeline and a line. */
  ghost predicate Follows(rest: seq<Tok>, cs: string) {
    rest == [] || Heads(rest, cs)
  }

  /** The next token is known, and gettoken returns it. */
  lemma TakeSign(t: string, s: nat, c: char, rest: seq<Tok>)
    requires s <= |t| && Lex(t, s) == [S(c)] + rest
    ensures var k := GetToken(t, SkipWs(t, s)); k.kind == c && s < k.next && Lex(t, k.next) == rest
  {
    LexNext(t, s);
    assert Lex(t, s)[0] == S(c) && Lex(t, s)[1..] == rest;
    hide Lex, GetToken;
  }

  lemma TakeWord(t: string, s: nat, w: string, rest: seq<Tok>)
    requires s <= |t| && Lex(t, s) == [W(w)] + rest && !Ws(At(t, s))
    ensures var k := GetToken(t, s); k.kind == 'a' && s < k.next && Slice(t, k.q, k.eq) == w && Lex(t, k.next) == rest
  {
    LexNext(t, s);
    LexSkip(t, s);
    assert Lex(t, s)[0] == W(w) && Lex(t, s)[1..] == rest;
    hide Lex;
  }

  lemma TakeNone(t: string, s: nat)
    requires s <= |t| && Lex(t, s) == []
    ensures GetToken(t, SkipWs(t, s)).kind == '\0'
  {
    LexNext(t, s);
  }

  lemma {:induction false} RedirsComplete(t: string, s: nat, rds: seq<Redirect>, rest: seq<Tok>)
    requires s <= |t| && NoNul(t) && Lex(t, s) == RedirectsToks(rds) + rest && !Heads(rest, "<>+")
    ensures var r := ParseRedirs(t, s); r.Redirs? && Said(t, r.list) == rds && r.at <= |t| && Lex(t, r.at) == rest
    decreases |rds|
  {
    hide Lex, GetToken, NoNul, Slice, Peek;
    PeekRedirect(t, s);
    LexSkip(t, s);
    if rds == [] {
      assert Said(t, []) == [];
    } else {
      var r, more := rds[0], RedirectsToks(rds[1..]) + rest;
      assert Lex(t, s) == [S(SignOf(r.mode))] + ([W(r.file)] + more);
      TakeSign(t, s, SignOf(r.mode), [W(r.file)] + more);
      var a := GetToken(t, SkipWs(t, s));
      NextStarts(t, SkipWs(t, s));
      TakeWord(t, a.next, r.file, more);
      var b := GetToken(t, a.next);
      RedirsComplete(t, b.next, rds[1..], rest);
      var found := ParseRedirs(t, b.next);
      var first := Redirection(b.q, b.eq, ModeOf(a.kind));
      assert ModeOf(a.kind) == r.mode;
      assert Said(t, [first] + found.list) == [r] + rds[1..];
    }
  }

  lemma NextStarts(t: string, s: nat)
    requires s <= |t|
    ensures !Ws(At(t, GetToken(t, s).next))
  {
  }

  /** The redirections at the front of some items. */
  lemma {:induction false} Leading(items: seq<Item>) returns (rds: seq<Redirect>, tail: seq<Item>)
    ensures items == AsItems(rds) + tail && (tail != [] ==> tail[0].Arg?)
    decreases |items|
  {
    if items == [] || items[0].Arg? {
      rds, tail := [], items;
    } else {
      rds, tail := Leading(items[1..]);
      rds := [items[0].r] + rds;
      assert items == [items[0]] + items[1..];
    }
  }

  lemma StartsArg(items: seq<Item>, rest: seq<Tok>)
    requires (items != [] ==> items[0].Arg?) && Follows(rest, "|)&;")
    ensures var toks := ItemsToks(items) + rest;
      && !Heads(toks, "<>+") && !Heads(toks, "(") && (items != [] ==> !Heads(toks, "|)&;") && toks[0] == W(items[0].w))
  {
  }

  lemma {:induction false} ArgsComplete(t: string, s: nat, args: seq<(nat, nat)>, rs: seq<Redirection>,
      items: seq<Item>, rest: seq<Tok>)
    requires s <= |t| && NoNul(t) && Lex(t, s) == ItemsToks(items) + rest && (items != [] ==> items[0].Arg?)
    requires Follows(rest, "|)&;") && |args| + |ArgsOf(items)| < MAXARGS && ItemsOk(items)
    ensures var r := ParseArgs(t, s, args, rs); FoundArgs(t, s, args, rs, r, items) && Lex(t, r.pos) == rest
    decreases |items|
  {
    hide Lex, GetToken, NoNul, Slice, Peek, Wrap, FoundArgs, FoundRedirs, ParseRedirs, IsWord, RedirectsToks;
    StartsArg(items, rest);
    LexSkip(t, s);
    PeekSign(t, s, "|)&;");
    var p := SkipWs(t, s);
    if items == [] {
      if Peek(t, s, "|)&;") {
        ArgsEnd(t, s, args, rs, p);
      } else {
        TakeNone(t, s);
        EndToken(t, p);
        ArgsEnd(t, s, args, rs, GetToken(t, p).next);
      }
    } else {
      var w := items[0].w;
      var rds, tail := Leading(items[1..]);
      SplitFirst(items, rds, tail, rest);
      TakeWord(t, p, w, RedirectsToks(rds) + (ItemsToks(tail) + rest));
      var tok := GetToken(t, p);
      StartsArg(tail, rest);
      RedirsComplete(t, tok.next, rds, ItemsToks(tail) + rest);
      RedirsSound(t, tok.next);
      var more := ParseRedirs(t, tok.next);
      ArgsComplete(t, more.at, args + [(tok.q, tok.eq)], rs + more.list, tail, rest);
      assert Lex(t, s) == [W(w)] + Lex(t, tok.next);
      ArgsStep(t, s, args, rs, tok, more, tail, ParseArgs(t, s, args, rs));
    }
  }

  lemma Regroup<T>(a: seq<T>, b: seq<T>, c: seq<T>, d: seq<T>)
    ensures a + (b + c) + d == a + (b + (c + d)) && b + c + d == b + (c + d)
  {
  }

  lemma TailOk(items: seq<Item>, head: seq<Item>, tail: seq<Item>)
    requires items == head + tail && ItemsOk(items)
    ensures ItemsOk(tail)
  {
    hide IsWord;
    assert forall i | 0 <= i < |tail| :: tail[i] == items[|head| + i];
  }

  lemma SplitFirst(items: seq<Item>, rds: seq<Redirect>, tail: seq<Item>, rest: seq<Tok>)
    requires items != [] && items[0].Arg? && items[1..] == AsItems(rds) + tail && ItemsOk(items)
    ensures items == [Arg(items[0].w)] + AsItems(rds) + tail && |tail| < |items|
    ensures ItemsToks(items) + rest == [W(items[0].w)] + (RedirectsToks(rds) + (ItemsToks(tail) + rest))
    ensures |ArgsOf(items)| == 1 + |ArgsOf(tail)| && ItemsOk(tail) && IsWord(items[0].w)
  {
    assert IsWord(items[0].w);
    var w := items[0].w;
    assert items == [Arg(w)] + (AsItems(rds) + tail) == [Arg(w)] + AsItems(rds) + tail;
    TailOk(items, [Arg(w)] + AsItems(rds), tail);
    hide IsWord, ItemsToks, ArgsOf, RedirectsToks, AsItems, RedirectsOf, ItemsOk;
    AsItemsIs(rds);
    OneArg(w);
    ItemsSplit([Arg(w)], AsItems(rds) + tail);
    ItemsSplit(AsItems(rds), tail);
    Regroup([W(w)], RedirectsToks(rds), ItemsToks(tail), rest);
  }

  lemma {:induction false} BacksComplete(t: string, s: nat, c: Cmd, n: nat, rest: seq<Tok>)
    requires s <= |t| && Lex(t, s) == Signs('&', n) + rest && !Heads(rest, "&")
    ensures var r := ParseBacks(t, s, c); FoundBacks(t, s, c, r, n) && Lex(t, r.1) == rest
    decreases n
  {
    hide Lex, GetToken, Peek, FoundBacks, SkipWs;
    LexSkip(t, s);
    PeekSign(t, s, "&");
    if n > 0 {
      assert Signs('&', n) == [S('&')] + Signs('&', n - 1);
      assert Lex(t, s) == [S('&')] + (Signs('&', n - 1) + rest);
      TakeSign(t, s, '&', Signs('&', n - 1) + rest);
      var at := GetToken(t, SkipWs(t, s)).next;
      BacksComplete(t, at, Back(c), n - 1, rest);
      MoreBacks(t, s, c, at, ParseBacks(t, at, Back(c)), n - 1);
    } else {
      assert Signs('&', 0) + rest == rest;
      NoBacks(t, s, c, SkipWs(t, s));
    }
  }

  lemma {:induction false} LineComplete(t: string, s: nat, line: Line, rest: seq<Tok>)
    requires s <= |t| && NoNul(t) && LineOk(line) && Lex(t, s) == LineToks(line) + rest && Follows(rest, ")")
    ensures var r := ParseLine(t, s); FoundLine(t, s, r, line) && Lex(t, r.pos) == rest
    decreases line
  {
    hide Lex, GetToken, Peek, NoNul, ParsePipe, ParseBacks, FoundPipe, FoundLine, FoundBacks, PipeToks, PipeOk;
    var end := RestToks(line.rest) + rest;
    var backs := Signs('&', line.backs) + end;
    assert Lex(t, s) == PipeToks(line.p) + backs;
    EndFollows(line, rest);
    PipeComplete(t, s, line.p, backs);
    var a := ParsePipe(t, s);
    FoundPipeOk(t, s, a, line.p);
    BacksComplete(t, a.pos, a.cmd, line.backs, end);
    var c := ParseBacks(t, a.pos, a.cmd);
    PeekSign(t, c.1, ";");
    match line.rest
    case Nothing =>
      assert end == rest;
      LexSkip(t, c.1);
      LineFound(t, s, a, line.p, c, line.backs);
    case After(l) =>
      assert end == [S(';')] + (LineToks(l) + rest);
      TakeSign(t, c.1, ';', LineToks(l) + rest);
      var at := GetToken(t, SkipWs(t, c.1)).next;
      LineComplete(t, at, l, rest);
      FoundLineOk(t, at, ParseLine(t, at), l);
      ListFound(t, s, a, line.p, c, line.backs, at, ParseLine(t, at), l);
  }

  lemma FoundPipeOk(t: string, s: nat, r: Outcome, p: Pipeline)
    requires FoundPipe(t, s, r, p)
    ensures r.Ok? && r.pos <= |t|
  {
  }

  lemma FoundLineOk(t: string, s: nat, r: Outcome, l: Line)
    requires FoundLine(t, s, r, l)
    ensures r.Ok? && r.pos <= |t|
  {
  }

  lemma FoundElemOk(t: string, s: nat, r: Outcome, e: Elem)
    requires FoundElem(t, s, r, e)
    ensures r.Ok? && r.pos <= |t|
  {
  }

  lemma EndFollows(line: Line, rest: seq<Tok>)
    requires Follows(rest, ")")
    ensures var end := RestToks(line.rest) + rest;
      !Heads(end, "&") && Follows(Signs('&', line.backs) + end, "&;)") && (line.rest.Nothing? ==> !Heads(end, ";"))
  {
    var end := RestToks(line.rest) + rest;
    if line.backs > 0 {
      assert (Signs('&', line.backs) + end)[0] == S('&');
    } else {
      assert Signs('&', 0) + end == end;
    }
  }

  lemma {:induction false} PipeComplete(t: string, s: nat, p: Pipeline, rest: seq<Tok>)
    requires s <= |t| && NoNul(t) && PipeOk(p) && Lex(t, s) == PipeToks(p) + rest && Follows(rest, "&;)")
    ensures var r := ParsePipe(t, s); FoundPipe(t, s, r, p) && Lex(t, r.pos) == rest
    decreases p
  {
    hide Lex, GetToken, Peek, NoNul, ParseExec, FoundElem, FoundPipe, ElemToks, ElemOk;
    match p
    case One(e) =>
      ElemComplete(t, s, e, rest);
      var a := ParseExec(t, s);
      FoundElemOk(t, s, a, e);
      PeekSign(t, a.pos, "|");
      LexSkip(t, a.pos);
      ElemSkip(t, s, a, e);
      OnePipe(t, s, Ok(a.cmd, SkipWs(t, a.pos)), e);
    case More(e, q) =>
      var more := [S('|')] + (PipeToks(q) + rest);
      assert Lex(t, s) == ElemToks(e) + more;
      ElemComplete(t, s, e, more);
      var a := ParseExec(t, s);
      FoundElemOk(t, s, a, e);
      PeekSign(t, a.pos, "|");
      TakeSign(t, a.pos, '|', PipeToks(q) + rest);
      var at := GetToken(t, SkipWs(t, a.pos)).next;
      PipeComplete(t, at, q, rest);
      FoundPipeOk(t, at, ParsePipe(t, at), q);
      MorePipe(t, s, a, e, at, ParsePipe(t, at), q);
  }

  lemma {:induction false} ElemComplete(t: string, s: nat, e: Elem, rest: seq<Tok>)
    requires s <= |t| && NoNul(t) && ElemOk(e) && Lex(t, s) == ElemToks(e) + rest && Follows(rest, "|)&;")
    ensures var r := ParseExec(t, s); FoundElem(t, s, r, e) && Lex(t, r.pos) == rest
    decreases e
  {
    hide Lex, NoNul, ParseExec, FoundElem, FoundLine, ParseLine;
    match e
    case Simple(items) => SimpleComplete(t, s, items, rest);
    case Block(line, rds) =>
      var more := [S(')')] + (RedirectsToks(rds) + rest);
      assert Lex(t, s) == [S('(')] + (LineToks(line) + more);
      LexSkip(t, s);
      TakeSign(t, SkipWs(t, s), '(', LineToks(line) + more);
      SkipTwice(t, s);
      var at := GetToken(t, SkipWs(t, s)).next;
      LineComplete(t, at, line, more);
      BlockComplete(t, s, at, line, rds, rest);
  }

  lemma BlockComplete(t: string, s: nat, at: nat, line: Line, rds: seq<Redirect>, rest: seq<Tok>)
    requires s <= |t| && NoNul(t) && Heads(Lex(t, s), "(") && !Heads(rest, "<>+")
    requires at == GetToken(t, SkipWs(t, s)).next && Lex(t, s) == [S('(')] + Lex(t, at)
    requires FoundLine(t, at, ParseLine(t, at), line)
    requires Lex(t, ParseLine(t, at).pos) == [S(')')] + (RedirectsToks(rds) + rest)
    ensures var r := ParseExec(t, s); FoundElem(t, s, r, Block(line, rds)) && Lex(t, r.pos) == rest
  {
    hide Lex, GetToken, Peek, NoNul, ParseLine, ParseArgs, ParseRedirs, FoundElem, FoundRedirs, FoundLine, SkipWs, Wrap;
    var a := ParseLine(t, at);
    FoundLineOk(t, at, a, line);
    PeekSign(t, s, "(");
    var p := SkipWs(t, s);
    LexSkip(t, s);
    SkipTwice(t, s);
    PeekSign(t, p, "(");
    PeekSign(t, a.pos, ")");
    TakeSign(t, a.pos, ')', RedirectsToks(rds) + rest);
    var q := GetToken(t, SkipWs(t, a.pos)).next;
    RedirsComplete(t, q, rds, rest);
    RedirsSound(t, q);
    BlockFound(t, s, at, a, line, q, ParseRedirs(t, q));
  }

  lemma SimpleComplete(t: string, s: nat, items: seq<Item>, rest: seq<Tok>)
    requires s <= |t| && NoNul(t) && ElemOk(Simple(items)) && Lex(t, s) == ItemsToks(items) + rest
    requires Follows(rest, "|)&;")
    ensures var r := ParseExec(t, s); FoundElem(t, s, r, Simple(items)) && Lex(t, r.pos) == rest
  {
    hide Lex, GetToken, Peek, NoNul, ParseBlock, ParseArgs, ParseRedirs, FoundElem, FoundArgs, FoundRedirs, IsWord;
    var rds, tail := Leading(items);
    SplitRedirects(items, rds, tail, rest);
    StartsArg(tail, rest);
    PeekSign(t, s, "(");
    NotBlock(rds, ItemsToks(tail) + rest);
    RedirsComplete(t, s, rds, ItemsToks(tail) + rest);
    RedirsSound(t, s);
    var rs := ParseRedirs(t, s);
    ArgsComplete(t, rs.at, [], rs.list, tail, rest);
    SimpleFound(t, s, rs, ParseExec(t, s), tail);
  }

  lemma NotBlock(rds: seq<Redirect>, rest: seq<Tok>)
    requires !Heads(rest, "(")
    ensures !Heads(RedirectsToks(rds) + rest, "(")
  {
  }

  lemma SplitRedirects(items: seq<Item>, rds: seq<Redirect>, tail: seq<Item>, rest: seq<Tok>)
    requires items == AsItems(rds) + tail && ItemsOk(items)
    ensures ItemsToks(items) + rest == RedirectsToks(rds) + (ItemsToks(tail) + rest)
    ensures ArgsOf(items) == ArgsOf(tail) && ItemsOk(tail)
  {
    TailOk(items, AsItems(rds), tail);
    hide IsWord, ItemsToks, ArgsOf, RedirectsToks, RedirectsOf, AsItems, ItemsOk;
    AsItemsIs(rds);
    ItemsSplit(AsItems(rds), tail);
    Regroup([], RedirectsToks(rds), ItemsToks(tail), rest);
  }

  /** Every sentence is accepted, however it is spaced, with the command it stands for. */
  lemma ParseComplete(t: string, line: Line)
    requires NoNul(t) && LineOk(line) && Lex(t, 0) == LineToks(line)
    ensures ParseCmd(t).Ok? && Denote(t, ParseCmd(t).cmd) == LineTree(line)
  {
    hide Lex, NoNul, ParseLine, Denote, LineTree, LineToks, LineOk;
    assert LineToks(line) + [] == LineToks(line);
    LineComplete(t, 0, line, []);
    AllRead(t, ParseLine(t, 0).pos);
  }

  lemma AllRead(t: string, s: nat)
    requires s <= |t| && NoNul(t) && Lex(t, s) == []
    ensures SkipWs(t, s) == |t|
  {
    TakeNone(t, s);
    SkipTwice(t, s);
  }

  /** The parser accepts exactly the sentences. */
  lemma ParseExact(t: string)
    requires NoNul(t)
    ensures ParseCmd(t).Ok? <==> exists line :: LineOk(line) && Lex(t, 0) == LineToks(line)
  {
    hide ParseCmd, Denote, NoNul, Lex, LineOk, LineToks, LineTree;
    if ParseCmd(t).Ok? {
      var line := ParseSound(t);
    }
    if line :| LineOk(line) && Lex(t, 0) == LineToks(line) {
      ParseComplete(t, line);
    }
  }
}
