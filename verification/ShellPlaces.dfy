/** No word of a line is lost: the places in the parsed command are those of all the words of the text. */
module ShellPlaces {
  import opened Shell
  import opened ShellStrings
  import opened ShellGrammar

  type Span = (nat, nat)

  /** The places of the words of the text from s on. */
  ghost function WordPlaces(t: string, s: nat): set<Span>
    requires s <= |t|
    decreases |t| - s
  {
    var k := GetToken(t, s);
    if k.kind == '\0' then {} else WordAt(k) + WordPlaces(t, k.next)
  }

  ghost function WordAt(k: Token): set<Span> {
    if k.kind == 'a' then {(k.q, k.eq)} else {}
  }

  lemma PlacesNext(t: string, s: nat)
    requires s <= |t|
    ensures WordPlaces(t, SkipWs(t, s)) == WordPlaces(t, s)
    ensures var k := GetToken(t, SkipWs(t, s));
      && (k.kind != '\0' ==> s < k.next)
      && WordPlaces(t, s) == (if k.kind == '\0' then {} else WordAt(k) + WordPlaces(t, k.next))
  {
    LexSkip(t, s);
    LexNext(t, s);
  }

  /** After a sign that peek has seen, the words are those that follow it. */
  lemma PlacesSign(t: string, s: nat, cs: string)
    requires s <= |t| && Peek(t, s, cs) && forall i | 0 <= i < |cs| :: Symbol(cs[i])
    ensures s < GetToken(t, SkipWs(t, s)).next
    ensures WordPlaces(t, GetToken(t, SkipWs(t, s)).next) == WordPlaces(t, s)
  {
    PlacesNext(t, s);
    SkipTwice(t, s);
    assert forall i | 0 <= i < |cs| :: Symbol(cs[i]);
  }

  ghost function ListPlaces(list: seq<Redirection>): set<Span> {
    set i | 0 <= i < |list| :: (list[i].q, list[i].eq)
  }

  ghost function ArgPlaces(args: seq<Span>): set<Span> {
    set i | 0 <= i < |args| :: args[i]
  }

  lemma ListSplit(a: seq<Redirection>, b: seq<Redirection>)
    ensures ListPlaces(a + b) == ListPlaces(a) + ListPlaces(b)
  {
    var ab := a + b;
    assert forall i | 0 <= i < |a| :: ab[i] == a[i];
    assert forall i | 0 <= i < |b| :: ab[|a| + i] == b[i];
    forall p | p in ListPlaces(b) ensures p in ListPlaces(ab) {
      var i :| 0 <= i < |b| && p == (b[i].q, b[i].eq);
      assert ab[|a| + i] == b[i];
    }
  }

  lemma ArgSnoc(args: seq<Span>, p: Span)
    ensures ArgPlaces(args + [p]) == ArgPlaces(args) + {p}
  {
    var more := args + [p];
    assert forall i | 0 <= i < |args| :: more[i] == args[i];
    assert more[|args|] == p;
  }

  lemma {:induction false} WrapPlaces(c: Cmd, list: seq<Redirection>)
    ensures Places(Wrap(c, list)) == Places(c) + ListPlaces(list)
    decreases |list|
  {
    if list != [] {
      var n := |list| - 1;
      WrapPlaces(c, list[..n]);
      assert list == list[..n] + [list[n]];
      ListSplit(list[..n], [list[n]]);
    }
  }

  lemma {:induction false} RedirsPlaces(t: string, s: nat)
    requires s <= |t|
    ensures var r := ParseRedirs(t, s); r.Redirs? ==> WordPlaces(t, s) == ListPlaces(r.list) + WordPlaces(t, r.at)
    decreases |t| - s
  {
    hide WordPlaces, GetToken, Peek;
    PlacesNext(t, s);
    if Peek(t, s, "<>") {
      PlacesSign(t, s, "<>");
      var a := GetToken(t, SkipWs(t, s));
      PlacesNext(t, a.next);
      LexSkip(t, a.next);
      var b := GetToken(t, a.next);
      if b.kind == 'a' {
        RedirsPlaces(t, b.next);
        var rest := ParseRedirs(t, b.next);
        if rest.Redirs? {
          var first := Redirection(b.q, b.eq, ModeOf(a.kind));
          ListSplit([first], rest.list);
          assert [first][0] == first && ListPlaces([first]) == {(b.q, b.eq)};
        }
      }
    }
  }

  lemma {:induction false} ArgsPlaces(t: string, s: nat, args: seq<Span>, rs: seq<Redirection>)
    requires s <= |t| && NoNul(t)
    ensures var r := ParseArgs(t, s, args, rs);
      r.Ok? ==> ArgPlaces(args) + ListPlaces(rs) + WordPlaces(t, s) == Places(r.cmd) + WordPlaces(t, r.pos)
    decreases |t| - s
  {
    hide WordPlaces, GetToken, Peek, Wrap, ParseRedirs, NoNul, ArgPlaces, ListPlaces;
    PlacesNext(t, s);
    WrapPlaces(Exec(args), rs);
    ExecPlaces(args);
    var p := SkipWs(t, s);
    var tok := GetToken(t, p);
    if Peek(t, s, "|)&;") {
    } else if tok.kind == '\0' {
      EndPlaces(t, p);
    } else if tok.kind == 'a' && |args| + 1 < MAXARGS {
      RedirsPlaces(t, tok.next);
      var more := ParseRedirs(t, tok.next);
      if more.Redirs? {
        ArgSnoc(args, (tok.q, tok.eq));
        ListSplit(rs, more.list);
        ArgsPlaces(t, more.at, args + [(tok.q, tok.eq)], rs + more.list);
      }
    }
  }

  lemma ExecPlaces(args: seq<Span>)
    ensures Places(Exec(args)) == ArgPlaces(args)
  {
  }

  lemma EndPlaces(t: string, p: nat)
    requires p <= |t| && GetToken(t, p).kind == '\0'
    ensures WordPlaces(t, GetToken(t, p).next) == WordPlaces(t, p)
  {
    PlacesNext(t, p);
    SkipTwice(t, p);
  }

  lemma {:induction false} BacksPlaces(t: string, s: nat, c: Cmd)
    requires s <= |t|
    ensures var r := ParseBacks(t, s, c); Places(r.0) + WordPlaces(t, r.1) == Places(c) + WordPlaces(t, s)
    decreases |t| - s
  {
    hide WordPlaces, GetToken, Peek;
    PlacesNext(t, s);
    if Peek(t, s, "&") {
      PlacesSign(t, s, "&");
      BacksPlaces(t, GetToken(t, SkipWs(t, s)).next, Back(c));
    }
  }

  lemma {:induction false} LinePlaces(t: string, s: nat)
    requires s <= |t| && NoNul(t)
    ensures var r := ParseLine(t, s); r.Ok? ==> WordPlaces(t, s) == Places(r.cmd) + WordPlaces(t, r.pos)
    decreases |t| - s, 3
  {
    hide WordPlaces, GetToken, Peek, NoNul, ParsePipe, ParseBacks;
    PipePlaces(t, s);
    var a := ParsePipe(t, s);
    if a.Ok? {
      BacksPlaces(t, a.pos, a.cmd);
      var (c, p) := ParseBacks(t, a.pos, a.cmd);
      PlacesNext(t, p);
      if Peek(t, p, ";") {
        PlacesSign(t, p, ";");
        LinePlaces(t, GetToken(t, SkipWs(t, p)).next);
      }
    }
  }

  lemma {:induction false} PipePlaces(t: string, s: nat)
    requires s <= |t| && NoNul(t)
    ensures var r := ParsePipe(t, s); r.Ok? ==> WordPlaces(t, s) == Places(r.cmd) + WordPlaces(t, r.pos)
    decreases |t| - s, 2
  {
    hide WordPlaces, GetToken, Peek, NoNul, ParseExec;
    ElemPlaces(t, s);
    var a := ParseExec(t, s);
    if a.Ok? {
      PlacesNext(t, a.pos);
      if Peek(t, a.pos, "|") {
        PlacesSign(t, a.pos, "|");
        PipePlaces(t, GetToken(t, SkipWs(t, a.pos)).next);
      }
    }
  }

  lemma {:induction false} ElemPlaces(t: string, s: nat)
    requires s <= |t| && NoNul(t)
    ensures var r := ParseExec(t, s); r.Ok? ==> WordPlaces(t, s) == Places(r.cmd) + WordPlaces(t, r.pos)
    decreases |t| - s, 1
  {
    hide WordPlaces, GetToken, Peek, NoNul, ParseBlock, ParseArgs, ParseRedirs, ListPlaces;
    PlacesNext(t, s);
    if Peek(t, s, "(") {
      BlockPlaces(t, SkipWs(t, s));
    } else {
      RedirsPlaces(t, s);
      var rs := ParseRedirs(t, s);
      if rs.Redirs? {
        ArgsPlaces(t, rs.at, [], rs.list);
        assert ArgPlaces([]) == {};
      }
    }
  }

  lemma {:induction false} BlockPlaces(t: string, s: nat)
    requires s <= |t| && NoNul(t)
    ensures var r := ParseBlock(t, s); r.Ok? ==> WordPlaces(t, s) == Places(r.cmd) + WordPlaces(t, r.pos)
    decreases |t| - s, 0
  {
    hide WordPlaces, GetToken, Peek, NoNul, ParseLine, ParseRedirs, Wrap, ListPlaces;
    if Peek(t, s, "(") {
      PlacesSign(t, s, "(");
      var at := GetToken(t, SkipWs(t, s)).next;
      LinePlaces(t, at);
      var a := ParseLine(t, at);
      if a.Ok? && Peek(t, a.pos, ")") {
        PlacesSign(t, a.pos, ")");
        var q := GetToken(t, SkipWs(t, a.pos)).next;
        RedirsPlaces(t, q);
        if ParseRedirs(t, q).Redirs? {
          WrapPlaces(a.cmd, ParseRedirs(t, q).list);
        }
      }
    }
  }

  /** Every word of an accepted line is an argument or a file name of the command, and nothing else is. */
  lemma EveryWord(t: string)
    requires NoNul(t) && ParseCmd(t).Ok?
    ensures Places(ParseCmd(t).cmd) == WordPlaces(t, 0)
  {
    hide NoNul, ParseLine, Places;
    LinePlaces(t, 0);
    PlacesNext(t, ParseLine(t, 0).pos);
  }
}
