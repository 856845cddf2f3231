/** The shell's parser as it runs, with its cursor advanced by loops. */
module ShellParser {
  import opened Shell

  class Parser {
    const t: string                    // the text; past its end stands the NUL
    var ps: nat

    constructor (t: string)
      ensures this.t == t && ps == 0
    {
      this.t, ps := t, 0;
    }

    method Skip()
      requires ps <= |t|
      modifies this
      ensures ps == SkipWs(t, old(ps))
    {
      while ps < |t| && Ws(t[ps])
        invariant ps <= |t| && SkipWs(t, ps) == SkipWs(t, old(ps))
      {
        ps := ps + 1;
      }
    }

    method Gettoken() returns (kind: char, q: nat, eq: nat)
      requires ps <= |t|
      modifies this
      ensures Token(kind, q, eq, ps) == GetToken(t, old(ps))
    {
      Skip();
      q := ps;
      var c := At(t, ps);
      kind := c;
      if c == '\0' {
      } else if c == '>' {
        ps := ps + 1;
        if At(t, ps) == '>' {
          kind := '+';
          ps := ps + 1;
        }
      } else if Symbol(c) {
        ps := ps + 1;
      } else {
        kind := 'a';
        while ps < |t| && !Ws(t[ps]) && !Symbol(t[ps])
          invariant q <= ps <= |t| && WordEnd(t, ps) == WordEnd(t, q)
        {
          ps := ps + 1;
        }
      }
      eq := ps;
      Skip();
    }

    method PeekAt(toks: string) returns (yes: bool)
      requires ps <= |t|
      modifies this
      ensures yes == Peek(t, old(ps), toks) && ps == SkipWs(t, old(ps))
    {
      Skip();
      var c := At(t, ps);
      return c != '\0' && c in toks;
    }

    /** parseredirs: the redirections found, in order; the caller's command is wrapped in them. */
    method Parseredirs() returns (ok: bool, rs: seq<Redirection>)
      requires ps <= |t|
      modifies this
      ensures ps <= |t|
      ensures if ok then ParseRedirs(t, old(ps)) == Redirs(rs, ps) else ParseRedirs(t, old(ps)).BadRedir?
    {
      hide GetToken, Peek, ParseRedirs, Prepend;
      rs := [];
      PrependNone(ParseRedirs(t, ps));
      var more := PeekAt("<>");
      ghost var s: nat := old(ps);
      while more
        invariant s <= ps <= |t| && ps == SkipWs(t, s) && more == Peek(t, s, "<>")
        invariant ParseRedirs(t, old(ps)) == Prepend(rs, ParseRedirs(t, s))
        decreases |t| - ps, if more then 1 else 0
      {
        RedirsUnfold(t, s);
        var kind, q, eq := Gettoken();
        var kind2;
        kind2, q, eq := Gettoken();
        if kind2 != 'a' {
          PrependBad(rs);
          return false, [];
        }
        PrependOne(rs, Redirection(q, eq, ModeOf(kind)), ParseRedirs(t, ps));
        rs := rs + [Redirection(q, eq, ModeOf(kind))];
        s := ps;
        more := PeekAt("<>");
      }
      RedirsStop(t, s, rs);
      return true, rs;
    }

    /** parseexec's words, with the redirections between them. */
    method Parseargs(rs0: seq<Redirection>) returns (r: Outcome)
      requires ps <= |t|
      modifies this
      ensures ps <= |t| && r == ParseArgs(t, old(ps), [], rs0) && (r.Ok? ==> r.pos == ps)
    {
      hide GetToken, Peek, ParseArgs, Wrap;
      var args: seq<(nat, nat)>, rs := [], rs0;
      ghost var s: nat := ps;
      var stop := PeekAt("|)&;");
      while !stop
        invariant s <= ps <= |t| && ps == SkipWs(t, s) && stop == Peek(t, s, "|)&;") && |args| < MAXARGS
        invariant ParseArgs(t, s, args, rs) == ParseArgs(t, old(ps), [], rs0)
        decreases |t| - ps, if stop then 0 else 1
      {
        ArgsUnfold(t, s, args, rs);
        var kind, q, eq := Gettoken();
        if kind == '\0' {
          break;
        }
        if kind != 'a' {
          return Panic;
        }
        if |args| + 1 >= MAXARGS {
          return Panic;
        }
        var ok, more := Parseredirs();
        if !ok {
          return Panic;
        }
        args, rs, s := args + [(q, eq)], rs + more, ps;
        stop := PeekAt("|)&;");
      }
      ArgsEnd(t, s, args, rs);
      return Ok(Wrap(Exec(args), rs), ps);
    }

    /** parseline's loop over &. */
    method Parsebacks(c: Cmd) returns (cmd: Cmd)
      requires ps <= |t|
      modifies this
      ensures (cmd, ps) == ParseBacks(t, old(ps), c)
    {
      hide GetToken;
      cmd := c;
      ghost var s: nat := ps;
      var more := PeekAt("&");
      while more
        invariant s <= ps <= |t| && ps == SkipWs(t, s) && more == Peek(t, s, "&")
        invariant ParseBacks(t, s, cmd) == ParseBacks(t, old(ps), c)
        decreases |t| - ps, if more then 1 else 0
      {
        TokenAdvances(t, ps);
        var kind, q, eq := Gettoken();
        cmd, s := Back(cmd), ps;
        more := PeekAt("&");
      }
    }

    method Parseline() returns (r: Outcome)
      requires ps <= |t|
      modifies this
      ensures ps <= |t| && r == ParseLine(t, old(ps)) && (r.Ok? ==> r.pos == ps)
      decreases |t| - ps, 3
    {
      hide GetToken, Peek, ParsePipe, ParseBacks;
      var a := Parsepipe();
      if a.Panic? {
        return Panic;
      }
      var c := Parsebacks(a.cmd);
      var s := ps;
      var more := PeekAt(";");
      if more {
        PeekAdvances(t, s, ";");
        var kind, q, eq := Gettoken();
        var b := Parseline();
        if b.Panic? {
          return Panic;
        }
        return Ok(List(c, b.cmd), ps);
      }
      return Ok(c, ps);
    }

    method Parsepipe() returns (r: Outcome)
      requires ps <= |t|
      modifies this
      ensures ps <= |t| && r == ParsePipe(t, old(ps)) && (r.Ok? ==> r.pos == ps)
      decreases |t| - ps, 2
    {
      hide GetToken, Peek, ParseExec;
      var a := Parseexec();
      if a.Panic? {
        return Panic;
      }
      var s := ps;
      var more := PeekAt("|");
      if more {
        PeekAdvances(t, s, "|");
        var kind, q, eq := Gettoken();
        var b := Parsepipe();
        if b.Panic? {
          return Panic;
        }
        return Ok(Pipe(a.cmd, b.cmd), ps);
      }
      return Ok(a.cmd, ps);
    }

    method Parseexec() returns (r: Outcome)
      requires ps <= |t|
      modifies this
      ensures ps <= |t| && r == ParseExec(t, old(ps)) && (r.Ok? ==> r.pos == ps)
      decreases |t| - ps, 1
    {
      hide GetToken, Peek, ParseBlock, ParseArgs, ParseRedirs;
      var s := ps;
      var open := PeekAt("(");
      SkipTwice(t, s);
      if open {
        r := Parseblock();
        return;
      }
      RedirsSkip(t, s);
      var ok, rs := Parseredirs();
      if !ok {
        return Panic;
      }
      r := Parseargs(rs);
    }

    method Parseblock() returns (r: Outcome)
      requires ps <= |t|
      modifies this
      ensures ps <= |t| && r == ParseBlock(t, old(ps)) && (r.Ok? ==> r.pos == ps)
      decreases |t| - ps, 0
    {
      hide GetToken, Peek, ParseLine, ParseRedirs, Wrap;
      var s := ps;
      var open := PeekAt("(");
      if !open {
        return Panic;
      }
      PeekAdvances(t, s, "(");
      var kind, q, eq := Gettoken();
      var a := Parseline();
      if a.Panic? {
        return Panic;
      }
      var close := PeekAt(")");
      if !close {
        return Panic;
      }
      kind, q, eq := Gettoken();
      var ok, rs := Parseredirs();
      if !ok {
        return Panic;
      }
      return Ok(Wrap(a.cmd, rs), ps);
    }

    /** parsecmd up to nulterminate. */
    method Parsecmd() returns (r: Outcome)
      requires ps == 0
      modifies this
      ensures r == ParseCmd(t)
    {
      hide ParseLine;
      r := Parseline();
      if r.Ok? {
        Skip();
        if ps != |t| {
          return Panic;
        }
        return Ok(r.cmd, ps);
      }
    }
  }

  lemma PrependBad(rs: seq<Redirection>)
    ensures Prepend(rs, BadRedir) == BadRedir
  {
  }

  lemma RedirsStop(t: string, s: nat, rs: seq<Redirection>)
    requires s <= |t| && !Peek(t, s, "<>")
    ensures Prepend(rs, ParseRedirs(t, s)) == Redirs(rs, SkipWs(t, s))
  {
    assert rs + [] == rs;
  }

  lemma SkipTwice(t: string, s: nat)
    requires s <= |t|
    ensures SkipWs(t, SkipWs(t, s)) == SkipWs(t, s)
  {
  }

  lemma RedirsSkip(t: string, s: nat)
    requires s <= |t|
    ensures ParseRedirs(t, SkipWs(t, s)) == ParseRedirs(t, s)
  {
    SkipTwice(t, s);
    hide GetToken;
  }

  lemma PeekAdvances(t: string, s: nat, toks: string)
    requires s <= |t| && Peek(t, s, toks)
    ensures GetToken(t, SkipWs(t, s)).next > SkipWs(t, s) >= s
  {
    SkipTwice(t, s);
  }

  lemma TokenAdvances(t: string, p: nat)
    requires p <= |t| && !Ws(At(t, p)) && At(t, p) != '\0'
    ensures GetToken(t, p).next > p
  {
  }

  /** One word of parseexec. */
  lemma ArgsUnfold(t: string, s: nat, args: seq<(nat, nat)>, rs: seq<Redirection>)
    requires s <= |t| && !Peek(t, s, "|)&;") && |args| < MAXARGS
    ensures var tok := GetToken(t, SkipWs(t, s));
      && (tok.kind != '\0' ==> tok.next > SkipWs(t, s))
      && (tok.kind == '\0' ==> ParseArgs(t, s, args, rs) == Ok(Wrap(Exec(args), rs), tok.next))
      && (tok.kind != '\0' && (tok.kind != 'a' || |args| + 1 >= MAXARGS) ==> ParseArgs(t, s, args, rs) == Panic)
      && (tok.kind == 'a' && |args| + 1 < MAXARGS ==>
            var more := ParseRedirs(t, tok.next);
            ParseArgs(t, s, args, rs) == if more.BadRedir? then Panic
              else ParseArgs(t, more.at, args + [(tok.q, tok.eq)], rs + more.list))
  {
    SkipTwice(t, s);
    hide ParseRedirs, Wrap;
  }

  lemma ArgsEnd(t: string, s: nat, args: seq<(nat, nat)>, rs: seq<Redirection>)
    requires s <= |t|
    ensures Peek(t, s, "|)&;") ==> ParseArgs(t, s, args, rs) == Ok(Wrap(Exec(args), rs), SkipWs(t, s))
  {
    hide ParseRedirs, Wrap, GetToken;
  }

  function Prepend(rs: seq<Redirection>, r: Redirections): Redirections {
    if r.BadRedir? then BadRedir else Redirs(rs + r.list, r.at)
  }

  lemma PrependNone(r: Redirections)
    ensures Prepend([], r) == r
  {
    if r.Redirs? {
      assert [] + r.list == r.list;
    }
  }

  lemma PrependOne(rs: seq<Redirection>, x: Redirection, r: Redirections)
    ensures Prepend(rs + [x], r) == Prepend(rs, Prepend([x], r))
  {
    if r.Redirs? {
      assert rs + [x] + r.list == rs + ([x] + r.list);
    }
  }

  /** One redirection of parseredirs. */
  lemma RedirsUnfold(t: string, s: nat)
    requires s <= |t| && Peek(t, s, "<>")
    ensures var a := GetToken(t, SkipWs(t, s)); var b := GetToken(t, a.next);
      && a.next > SkipWs(t, s)
      && ParseRedirs(t, s) == if b.kind != 'a' then BadRedir
           else Prepend([Redirection(b.q, b.eq, ModeOf(a.kind))], ParseRedirs(t, b.next))
  {
  }
}
