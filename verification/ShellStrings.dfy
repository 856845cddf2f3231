/** nulterminate: after it, every word and file name of a parsed command is a C string equal to its token. */
module ShellStrings {
  import opened Shell

  // ---------- tokens of a parsed command

  predicate Plain(c: char) { !Ws(c) && !Symbol(c) }

  /** [q, eq) is a maximal run of characters that are neither blank nor a symbol. */
  ghost predicate Word(t: string, q: nat, eq: nat) {
    && q < eq <= |t|
    && (forall i | q <= i < eq :: Plain(t[i]))
    && (eq < |t| ==> !Plain(t[eq]))
    && (q > 0 ==> !Plain(t[q - 1]))
  }

  /** s is not inside a word. */
  predicate Boundary(t: string, s: nat) {
    0 < s < |t| && Plain(t[s]) ==> !Plain(t[s - 1])
  }

  /** The places of words and files in a command. */
  ghost function Places(c: Cmd): set<(nat, nat)> {
    match c
    case Exec(args) => set i | 0 <= i < |args| :: args[i]
    case Redir(d, q, eq, _) => Places(d) + {(q, eq)}
    case Pipe(l, r) => Places(l) + Places(r)
    case List(l, r) => Places(l) + Places(r)
    case Back(d) => Places(d)
  }

  /** No command has more words than fit in its argv. */
  ghost predicate Fits(c: Cmd) {
    match c
    case Exec(args) => |args| < MAXARGS
    case Redir(d, _, _, _) => Fits(d)
    case Pipe(l, r) => Fits(l) && Fits(r)
    case List(l, r) => Fits(l) && Fits(r)
    case Back(d) => Fits(d)
  }

  ghost predicate AllWords(t: string, c: Cmd) {
    Fits(c) && forall p | p in Places(c) :: Word(t, p.0, p.1)
  }

  lemma TokenWord(t: string, s: nat)
    requires s <= |t| && NoNul(t) && Boundary(t, s) && GetToken(t, s).kind == 'a'
    ensures Word(t, GetToken(t, s).q, GetToken(t, s).eq)
  {
  }

  /** No token ends inside a word. */
  lemma TokenEnds(t: string, s: nat)
    requires s <= |t| && NoNul(t)
    ensures Boundary(t, GetToken(t, s).next)
  {
  }

  lemma SkipBoundary(t: string, s: nat)
    requires s <= |t| && Boundary(t, s)
    ensures Boundary(t, SkipWs(t, s))
  {
  }

  ghost predicate RedirWords(t: string, rs: seq<Redirection>) {
    forall i | 0 <= i < |rs| :: Word(t, rs[i].q, rs[i].eq)
  }

  lemma {:induction false} RedirsWords(t: string, s: nat)
    requires s <= |t| && NoNul(t) && Boundary(t, s)
    ensures ParseRedirs(t, s).Redirs? ==>
      RedirWords(t, ParseRedirs(t, s).list) && Boundary(t, ParseRedirs(t, s).at)
    decreases |t| - s
  {
    hide Word, NoNul, Boundary;
    SkipBoundary(t, s);
    if Peek(t, s, "<>") {
      TokenEnds(t, SkipWs(t, s));
      var a := GetToken(t, SkipWs(t, s));
      TokenEnds(t, a.next);
      var b := GetToken(t, a.next);
      if b.kind == 'a' {
        TokenWord(t, a.next);
        RedirsWords(t, b.next);
      }
    }
  }

  lemma {:induction false} WrapWords(t: string, c: Cmd, rs: seq<Redirection>)
    requires AllWords(t, c) && RedirWords(t, rs)
    ensures AllWords(t, Wrap(c, rs))
    decreases |rs|
  {
    hide Word;
    if rs != [] {
      WrapWords(t, c, rs[..|rs| - 1]);
    }
  }

  ghost predicate ArgWords(t: string, args: seq<(nat, nat)>) {
    forall i | 0 <= i < |args| :: Word(t, args[i].0, args[i].1)
  }

  lemma ExecWords(t: string, args: seq<(nat, nat)>, rs: seq<Redirection>)
    requires ArgWords(t, args) && RedirWords(t, rs) && |args| < MAXARGS
    ensures AllWords(t, Wrap(Exec(args), rs))
  {
    hide Word;
    WrapWords(t, Exec(args), rs);
  }

  lemma {:induction false} ArgsWords(t: string, s: nat, args: seq<(nat, nat)>, rs: seq<Redirection>)
    requires s <= |t| && NoNul(t) && Boundary(t, s) && ArgWords(t, args) && RedirWords(t, rs) && |args| < MAXARGS
    ensures var r := ParseArgs(t, s, args, rs); r.Ok? ==> AllWords(t, r.cmd) && Boundary(t, r.pos)
    decreases |t| - s
  {
    hide Word, NoNul, AllWords, Wrap, ParseRedirs, Boundary;
    ExecWords(t, args, rs);
    SkipBoundary(t, s);
    var p := SkipWs(t, s);
    if !Peek(t, s, "|)&;") {
      TokenEnds(t, p);
      var tok := GetToken(t, p);
      if tok.kind == 'a' && |args| + 1 < MAXARGS {
        TokenWord(t, p);
        RedirsWords(t, tok.next);
        var more := ParseRedirs(t, tok.next);
        if more.Redirs? {
          ArgsWords(t, more.at, args + [(tok.q, tok.eq)], rs + more.list);
        }
      }
    }
  }

  lemma {:induction false} BacksWords(t: string, s: nat, c: Cmd)
    requires s <= |t| && NoNul(t) && Boundary(t, s) && AllWords(t, c)
    ensures AllWords(t, ParseBacks(t, s, c).0) && Boundary(t, ParseBacks(t, s, c).1)
    decreases |t| - s
  {
    hide Word, NoNul, Boundary;
    SkipBoundary(t, s);
    if Peek(t, s, "&") {
      assert Places(Back(c)) == Places(c);
      TokenEnds(t, SkipWs(t, s));
      BacksWords(t, GetToken(t, SkipWs(t, s)).next, Back(c));
    }
  }

  lemma {:induction false} LineWords(t: string, s: nat)
    requires s <= |t| && NoNul(t) && Boundary(t, s)
    ensures ParseLine(t, s).Ok? ==> AllWords(t, ParseLine(t, s).cmd) && Boundary(t, ParseLine(t, s).pos)
    decreases |t| - s, 3
  {
    hide Word, NoNul, ParsePipe, ParseBacks, Boundary;
    PipeWords(t, s);
    var a := ParsePipe(t, s);
    if a.Ok? {
      BacksWords(t, a.pos, a.cmd);
      var (c, p) := ParseBacks(t, a.pos, a.cmd);
      SkipBoundary(t, p);
      if Peek(t, p, ";") {
        TokenEnds(t, SkipWs(t, p));
        LineWords(t, GetToken(t, SkipWs(t, p)).next);
      }
    }
  }

  lemma {:induction false} PipeWords(t: string, s: nat)
    requires s <= |t| && NoNul(t) && Boundary(t, s)
    ensures ParsePipe(t, s).Ok? ==> AllWords(t, ParsePipe(t, s).cmd) && Boundary(t, ParsePipe(t, s).pos)
    decreases |t| - s, 2
  {
    hide Word, NoNul, ParseExec, Boundary;
    ExecutableWords(t, s);
    var a := ParseExec(t, s);
    if a.Ok? {
      SkipBoundary(t, a.pos);
      if Peek(t, a.pos, "|") {
        TokenEnds(t, SkipWs(t, a.pos));
        PipeWords(t, GetToken(t, SkipWs(t, a.pos)).next);
      }
    }
  }

  lemma {:induction false} ExecutableWords(t: string, s: nat)
    requires s <= |t| && NoNul(t) && Boundary(t, s)
    ensures ParseExec(t, s).Ok? ==> AllWords(t, ParseExec(t, s).cmd) && Boundary(t, ParseExec(t, s).pos)
    decreases |t| - s, 1
  {
    hide Word, NoNul, ParseBlock, ParseArgs, ParseRedirs, AllWords, Boundary;
    if Peek(t, s, "(") {
      BlockWords(t, SkipWs(t, s));
    } else {
      RedirsWords(t, s);
      var rs := ParseRedirs(t, s);
      if rs.Redirs? {
        ArgsWords(t, rs.at, [], rs.list);
      }
    }
  }

  lemma {:induction false} BlockWords(t: string, s: nat)
    requires s <= |t| && NoNul(t)
    ensures ParseBlock(t, s).Ok? ==> AllWords(t, ParseBlock(t, s).cmd) && Boundary(t, ParseBlock(t, s).pos)
    decreases |t| - s, 0
  {
    hide Word, NoNul, ParseLine, ParseRedirs, AllWords, Wrap, Boundary;
    if Peek(t, s, "(") {
      TokenEnds(t, SkipWs(t, s));
      var p := GetToken(t, SkipWs(t, s)).next;
      LineWords(t, p);
      var a := ParseLine(t, p);
      if a.Ok? && Peek(t, a.pos, ")") {
        TokenEnds(t, SkipWs(t, a.pos));
        var q := GetToken(t, SkipWs(t, a.pos)).next;
        RedirsWords(t, q);
        if ParseRedirs(t, q).Redirs? {
          WrapWords(t, a.cmd, ParseRedirs(t, q).list);
        }
      }
    }
  }

  // ---------- nulterminate

  /** NULs at the ends of the first n words. */
  function CutArgs(b: string, args: seq<(nat, nat)>, n: nat): (r: string)
    requires n <= |args|
    ensures |r| == |b|
    decreases n
  {
    if n == 0 then b
    else
      var p := CutArgs(b, args, n - 1);
      if args[n - 1].1 < |b| then p[args[n - 1].1 := '\0'] else p
  }

  function Terminated(b: string, c: Cmd): (r: string)
    ensures |r| == |b|
    decreases c
  {
    match c
    case Exec(args) => CutArgs(b, args, |args|)
    case Redir(d, _, eq, _) => var p := Terminated(b, d); if eq < |b| then p[eq := '\0'] else p
    case Pipe(l, r) => Terminated(Terminated(b, l), r)
    case List(l, r) => Terminated(Terminated(b, l), r)
    case Back(d) => Terminated(b, d)
  }

  /** Where NULs go. */
  ghost function Ends(c: Cmd): set<nat> {
    set p | p in Places(c) :: p.1
  }

  ghost predicate InBuffer(c: Cmd, n: nat) {
    forall p | p in Places(c) :: p.1 < n
  }

  method Nulterminate(buf: array<char>, c: Cmd)
    requires InBuffer(c, buf.Length)
    modifies buf
    ensures buf[..] == Terminated(old(buf[..]), c)
    decreases c
  {
    match c
    case Exec(args) =>
      var i := 0;
      while i < |args|
        invariant i <= |args| && buf[..] == CutArgs(old(buf[..]), args, i)
      {
        assert args[i] in Places(c);
        buf[args[i].1] := '\0';
        i := i + 1;
      }
    case Redir(d, q, eq, _) =>
      assert (q, eq) in Places(c);
      assert forall p | p in Places(d) :: p in Places(c);
      Nulterminate(buf, d);
      buf[eq] := '\0';
    case Pipe(l, r) =>
      assert forall p | p in Places(l) || p in Places(r) :: p in Places(c);
      Nulterminate(buf, l);
      Nulterminate(buf, r);
    case List(l, r) =>
      assert forall p | p in Places(l) || p in Places(r) :: p in Places(c);
      Nulterminate(buf, l);
      Nulterminate(buf, r);
    case Back(d) =>
      assert forall p | p in Places(d) :: p in Places(c);
      Nulterminate(buf, d);
  }

  // ---------- the strings

  lemma {:induction false} CutArgsAt(b: string, args: seq<(nat, nat)>, n: nat, i: nat)
    requires n <= |args| && i < |b|
    ensures CutArgs(b, args, n)[i] == if exists k :: 0 <= k < n && args[k].1 == i then '\0' else b[i]
    decreases n
  {
    if n > 0 {
      CutArgsAt(b, args, n - 1, i);
    }
  }

  lemma {:induction false} TerminatedAt(b: string, c: Cmd, i: nat)
    requires i < |b|
    ensures Terminated(b, c)[i] == if i in Ends(c) then '\0' else b[i]
    decreases c
  {
    match c
    case Exec(args) =>
      CutArgsAt(b, args, |args|, i);
      assert forall k | 0 <= k < |args| :: args[k] in Places(c);
    case Redir(d, q, eq, _) =>
      TerminatedAt(b, d, i);
      assert Ends(c) == Ends(d) + {eq} by { assert (q, eq) in Places(c); }
    case Pipe(l, r) =>
      TerminatedAt(b, l, i);
      TerminatedAt(Terminated(b, l), r, i);
      assert Ends(c) == Ends(l) + Ends(r);
    case List(l, r) =>
      TerminatedAt(b, l, i);
      TerminatedAt(Terminated(b, l), r, i);
      assert Ends(c) == Ends(l) + Ends(r);
    case Back(d) =>
      TerminatedAt(b, d, i);
  }

  /** The C string at q. */
  function CString(b: string, q: nat): string
    decreases |b| - q
  {
    if q >= |b| || b[q] == '\0' then [] else [b[q]] + CString(b, q + 1)
  }

  lemma {:induction false} CStringUpTo(b: string, q: nat, e: nat)
    requires q <= e < |b| && b[e] == '\0' && forall i | q <= i < e :: b[i] != '\0'
    ensures CString(b, q) == b[q..e]
    decreases e - q
  {
    if q < e {
      CStringUpTo(b, q + 1, e);
    }
  }

  /** A NUL written for one word never falls inside another. */
  lemma NotInside(t: string, c: Cmd, q: nat, eq: nat, i: nat)
    requires AllWords(t, c) && Word(t, q, eq) && q <= i < eq
    ensures i !in Ends(c)
  {
    forall p | p in Places(c) ensures p.1 != i {
      assert Word(t, p.0, p.1);
    }
  }

  /** With a NUL at its end and none inside, the C string at a word is the word. */
  lemma WordString(t: string, c: Cmd, q: nat, eq: nat)
    requires NoNul(t) && AllWords(t, c) && Word(t, q, eq) && eq in Ends(c)
    ensures CString(Terminated(t + ['\0'], c), q) == t[q..eq]
  {
    hide Terminated, AllWords, CString, Ends;
    var b := t + ['\0'];
    var d := Terminated(b, c);
    forall i | q <= i < eq ensures d[i] == t[i] && t[i] != '\0' {
      NotInside(t, c, q, eq, i);
      TerminatedAt(b, c, i);
    }
    TerminatedAt(b, c, eq);
    CStringUpTo(d, q, eq);
    assert d[q..eq] == t[q..eq];
  }

  /** After nulterminate, each word and file name of a command parsed from t is exactly its token. */
  lemma TokensAreStrings(t: string, c: Cmd, p: (nat, nat))
    requires NoNul(t) && ParseCmd(t).Ok? && c == ParseCmd(t).cmd && p in Places(c)
    ensures InBuffer(c, |t| + 1)
    ensures p.0 < p.1 <= |t| && CString(Terminated(t + ['\0'], c), p.0) == t[p.0..p.1]
  {
    LineWords(t, 0);
    hide ParseCmd, ParseLine, NoNul, Places, Terminated, CString, Fits;
    assert Word(t, p.0, p.1) && p.1 in Ends(c);
    WordString(t, c, p.0, p.1);
  }
}
