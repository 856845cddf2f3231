/** The shell's lexer and parser (sh.c): what they compute, as functions of the text and a position in it. */
module Shell {

  // ---------- characters

  predicate Ws(c: char) { c == ' ' || c == '\t' || c == '\r' || c == '\n' || c == '\U{B}' }

  predicate Symbol(c: char) {
    c == '<' || c == '|' || c == '>' || c == '&' || c == ';' || c == '(' || c == ')'
  }

  predicate WordChar(c: char) { c != '\0' && !Ws(c) && !Symbol(c) }

  /** The character at s; past the end stands the NUL. */
  function At(t: string, s: nat): char { if s < |t| then t[s] else '\0' }

  ghost predicate NoNul(t: string) { forall i | 0 <= i < |t| :: t[i] != '\0' }

  // ---------- tokens

  function SkipWs(t: string, s: nat): (r: nat)
    requires s <= |t|
    ensures s <= r <= |t| && !Ws(At(t, r)) && forall i | s <= i < r :: Ws(t[i])
    decreases |t| - s
  {
    if s < |t| && Ws(t[s]) then SkipWs(t, s + 1) else s
  }

  function WordEnd(t: string, s: nat): (r: nat)
    requires s <= |t|
    ensures s <= r <= |t| && forall i | s <= i < r :: !Ws(t[i]) && !Symbol(t[i])
    ensures r < |t| ==> Ws(t[r]) || Symbol(t[r])
    decreases |t| - s
  {
    if s < |t| && !Ws(t[s]) && !Symbol(t[s]) then WordEnd(t, s + 1) else s
  }

  datatype Token = Token(kind: char, q: nat, eq: nat, next: nat)

  /** gettoken: the kind of the token after s ('a' for a word, '+' for >>, NUL at the end), where it begins and ends,
      and where the next one begins. */
  function GetToken(t: string, s: nat): (r: Token)
    requires s <= |t|
    ensures s <= r.q <= r.eq <= r.next <= |t| && !Ws(At(t, r.next))
    ensures At(t, r.q) != '\0' ==> r.q < r.eq
  {
    var q := SkipWs(t, s);
    var c := At(t, q);
    var (kind, e) :=
      if c == '\0' then (c, q)
      else if c == '>' then (if At(t, q + 1) == '>' then ('+', q + 2) else ('>', q + 1))
      else if Symbol(c) then (c, q + 1)
      else ('a', WordEnd(t, q));
    Token(kind, q, e, SkipWs(t, e))
  }

  /** peek: is the next character one of toks, and where is it. */
  predicate Peek(t: string, s: nat, toks: string)
    requires s <= |t|
  {
    var c := At(t, SkipWs(t, s));
    c != '\0' && c in toks
  }

  // ---------- commands

  datatype Mode = In | Out | Append

  /** A command, with words and files as places in the text. */
  datatype Cmd =
    | Exec(args: seq<(nat, nat)>)
    | Redir(cmd: Cmd, q: nat, eq: nat, mode: Mode)
    | Pipe(left: Cmd, right: Cmd)
    | List(left: Cmd, right: Cmd)
    | Back(cmd: Cmd)

  const MAXARGS: nat := 10

  datatype Outcome = Ok(cmd: Cmd, pos: nat) | Panic

  datatype Redirection = Redirection(q: nat, eq: nat, mode: Mode)

  datatype Redirections = Redirs(list: seq<Redirection>, at: nat) | BadRedir

  function ModeOf(kind: char): Mode {
    if kind == '<' then In else if kind == '>' then Out else Append
  }

  /** parseredirs: the redirections that follow. */
  function ParseRedirs(t: string, s: nat): (r: Redirections)
    requires s <= |t|
    ensures r.Redirs? ==> s <= r.at <= |t|
    decreases |t| - s
  {
    if !Peek(t, s, "<>") then Redirs([], SkipWs(t, s))
    else
      var a := GetToken(t, SkipWs(t, s));
      var b := GetToken(t, a.next);
      if b.kind != 'a' then BadRedir
      else
        var rest := ParseRedirs(t, b.next);
        if rest.BadRedir? then BadRedir
        else Redirs([Redirection(b.q, b.eq, ModeOf(a.kind))] + rest.list, rest.at)
  }

  /** Wrap c in redirections, the first one innermost. */
  function Wrap(c: Cmd, rs: seq<Redirection>): Cmd {
    if rs == [] then c
    else Redir(Wrap(c, rs[..|rs| - 1]), rs[|rs| - 1].q, rs[|rs| - 1].eq, rs[|rs| - 1].mode)
  }

  /** The loop of parseexec, with the words and redirections found so far. */
  function ParseArgs(t: string, s: nat, args: seq<(nat, nat)>, rs: seq<Redirection>): (r: Outcome)
    requires s <= |t|
    ensures r.Ok? ==> s <= r.pos <= |t|
    decreases |t| - s
  {
    var p := SkipWs(t, s);
    if Peek(t, s, "|)&;") then Ok(Wrap(Exec(args), rs), p)
    else
      var tok := GetToken(t, p);
      if tok.kind == '\0' then Ok(Wrap(Exec(args), rs), tok.next)
      else if tok.kind != 'a' then Panic
      else if |args| + 1 >= MAXARGS then Panic
      else
        var more := ParseRedirs(t, tok.next);
        if more.BadRedir? then Panic
        else ParseArgs(t, more.at, args + [(tok.q, tok.eq)], rs + more.list)
  }

  /** The loop of parseline over &. */
  function ParseBacks(t: string, s: nat, c: Cmd): (r: (Cmd, nat))
    requires s <= |t|
    ensures s <= r.1 <= |t|
    decreases |t| - s
  {
    if Peek(t, s, "&") then ParseBacks(t, GetToken(t, SkipWs(t, s)).next, Back(c)) else (c, SkipWs(t, s))
  }

  function ParseLine(t: string, s: nat): (r: Outcome)
    requires s <= |t|
    ensures r.Ok? ==> s <= r.pos <= |t|
    decreases |t| - s, 3
  {
    var a := ParsePipe(t, s);
    if a.Panic? then Panic
    else
      var (c, p) := ParseBacks(t, a.pos, a.cmd);
      if Peek(t, p, ";") then
        var b := ParseLine(t, GetToken(t, SkipWs(t, p)).next);
        if b.Panic? then Panic else Ok(List(c, b.cmd), b.pos)
      else Ok(c, SkipWs(t, p))
  }

  function ParsePipe(t: string, s: nat): (r: Outcome)
    requires s <= |t|
    ensures r.Ok? ==> s <= r.pos <= |t|
    decreases |t| - s, 2
  {
    var a := ParseExec(t, s);
    if a.Panic? then Panic
    else if Peek(t, a.pos, "|") then
      var b := ParsePipe(t, GetToken(t, SkipWs(t, a.pos)).next);
      if b.Panic? then Panic else Ok(Pipe(a.cmd, b.cmd), b.pos)
    else Ok(a.cmd, SkipWs(t, a.pos))
  }

  function ParseExec(t: string, s: nat): (r: Outcome)
    requires s <= |t|
    ensures r.Ok? ==> s <= r.pos <= |t|
    decreases |t| - s, 1
  {
    if Peek(t, s, "(") then ParseBlock(t, SkipWs(t, s))
    else
      var rs := ParseRedirs(t, s);
      if rs.BadRedir? then Panic else ParseArgs(t, rs.at, [], rs.list)
  }

  /** parseblock, at the opening parenthesis. */
  function ParseBlock(t: string, s: nat): (r: Outcome)
    requires s <= |t|
    ensures r.Ok? ==> s <= r.pos <= |t|
    decreases |t| - s, 0
  {
    if !Peek(t, s, "(") then Panic
    else
      var a := ParseLine(t, GetToken(t, SkipWs(t, s)).next);
      if a.Panic? || !Peek(t, a.pos, ")") then Panic
      else
        var rs := ParseRedirs(t, GetToken(t, SkipWs(t, a.pos)).next);
        if rs.BadRedir? then Panic else Ok(Wrap(a.cmd, rs.list), rs.at)
  }

  /** parsecmd before nulterminate: the whole text, or a syntax error. */
  function ParseCmd(t: string): (r: Outcome)
    ensures r.Ok? ==> r.pos == |t|
  {
    var a := ParseLine(t, 0);
    if a.Panic? || SkipWs(t, a.pos) != |t| then Panic else Ok(a.cmd, |t|)
  }
}
