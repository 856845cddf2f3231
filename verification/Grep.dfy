/** grep's regular-expression matcher, against the language its patterns denote. */
module Grep {

  // ---------- patterns and their language

  datatype Item = Lit(c: char) | Any | Star(c: char)

  /** The items of a pattern without its ^, and whether it ends in $.  A character before * is starred, whatever it
      is; a $ is special only as the last character; everything else but . stands for itself. */
  function Items(re: string): seq<Item> {
    if re == [] then []
    else if |re| >= 2 && re[1] == '*' then [Star(re[0])] + Items(re[2..])
    else if re == "$" then []
    else [if re[0] == '.' then Any else Lit(re[0])] + Items(re[1..])
  }

  predicate Anchored(re: string) {
    if re == [] then false
    else if |re| >= 2 && re[1] == '*' then Anchored(re[2..])
    else if re == "$" then true
    else Anchored(re[1..])
  }

  /** A string one item stands for. */
  ghost predicate Piece(x: Item, u: string) {
    match x
    case Lit(c) => u == [c]
    case Any => |u| == 1
    case Star(c) => c == '.' || forall i | 0 <= i < |u| :: u[i] == c
  }

  ghost function Concat(us: seq<string>): string {
    if us == [] then [] else us[0] + Concat(us[1..])
  }

  ghost predicate Pieces(xs: seq<Item>, us: seq<string>) {
    |us| == |xs| && forall k | 0 <= k < |xs| :: Piece(xs[k], us[k])
  }

  /** u is in the language of xs: it is made of one piece for each item. */
  ghost predicate InLanguage(xs: seq<Item>, u: string) {
    exists us: seq<string> :: Pieces(xs, us) && Concat(us) == u
  }

  /** Some prefix of text is in the language, all of it if the pattern ends in $. */
  ghost predicate Begins(xs: seq<Item>, anchored: bool, text: string) {
    exists j: nat :: j <= |text| && InLanguage(xs, text[..j]) && (anchored ==> j == |text|)
  }

  /** What grep promises: a match begins somewhere in the text, at its start if the pattern begins with ^. */
  ghost predicate Matches(re: string, text: string) {
    if re != [] && re[0] == '^' then Begins(Items(re[1..]), Anchored(re[1..]), text)
    else exists i: nat :: i <= |text| && Begins(Items(re), Anchored(re), text[i..])
  }

  // ---------- taking one item off

  lemma LanguageNil(u: string)
    ensures InLanguage([], u) <==> u == []
  {
    if u == [] {
      assert Pieces([], []) && Concat([]) == u;
    }
  }

  lemma LanguageCons(x: Item, xs: seq<Item>, u: string, k: nat)
    requires k <= |u| && Piece(x, u[..k]) && InLanguage(xs, u[k..])
    ensures InLanguage([x] + xs, u)
  {
    var us :| Pieces(xs, us) && Concat(us) == u[k..];
    var vs := [u[..k]] + us;
    assert vs[1..] == us;
    assert Pieces([x] + xs, vs);
    assert Concat(vs) == u[..k] + u[k..] == u;
  }

  lemma LanguageUncons(x: Item, xs: seq<Item>, u: string) returns (k: nat)
    requires InLanguage([x] + xs, u)
    ensures k <= |u| && Piece(x, u[..k]) && InLanguage(xs, u[k..])
  {
    var us :| Pieces([x] + xs, us) && Concat(us) == u;
    k := |us[0]|;
    assert u == us[0] + Concat(us[1..]);
    assert u[..k] == us[0] && u[k..] == Concat(us[1..]);
    assert Piece(([x] + xs)[0], us[0]);
    forall i | 0 <= i < |xs| ensures Piece(xs[i], us[1..][i]) {
      assert ([x] + xs)[i + 1] == xs[i];
    }
    assert Pieces(xs, us[1..]);
  }

  lemma BeginsNil(anchored: bool, text: string)
    ensures Begins([], anchored, text) <==> !anchored || text == []
  {
    LanguageNil(text[..0]);
    if !anchored || text == [] {
      assert 0 <= |text| && InLanguage([], text[..0]);
    }
    forall j: nat | j <= |text| ensures InLanguage([], text[..j]) <==> j == 0 { LanguageNil(text[..j]); }
  }

  /** A match of an item and a rest splits at some k, and the other way round. */
  lemma BeginsCons(x: Item, xs: seq<Item>, anchored: bool, text: string, k: nat)
    requires k <= |text| && Piece(x, text[..k]) && Begins(xs, anchored, text[k..])
    ensures Begins([x] + xs, anchored, text)
  {
    var j: nat :| j <= |text[k..]| && InLanguage(xs, text[k..][..j]) && (anchored ==> j == |text[k..]|);
    var u := text[..k + j];
    assert u[..k] == text[..k] && u[k..] == text[k..][..j];
    LanguageCons(x, xs, u, k);
  }

  lemma BeginsUncons(x: Item, xs: seq<Item>, anchored: bool, text: string) returns (k: nat)
    requires Begins([x] + xs, anchored, text)
    ensures k <= |text| && Piece(x, text[..k]) && Begins(xs, anchored, text[k..])
  {
    var j: nat :| j <= |text| && InLanguage([x] + xs, text[..j]) && (anchored ==> j == |text|);
    k := LanguageUncons(x, xs, text[..j]);
    assert text[..j][..k] == text[..k] && text[..j][k..] == text[k..][..j - k];
  }

  // ---------- what the code computes

  predicate Here(re: string, text: string)
    decreases |re|, 0
  {
    if re == [] then true
    else if |re| >= 2 && re[1] == '*' then Repeat(re[0], re[2..], text)
    else if re == "$" then text == []
    else text != [] && (re[0] == '.' || re[0] == text[0]) && Here(re[1..], text[1..])
  }

  predicate Repeat(c: char, re: string, text: string)
    decreases |re|, 1 + |text|
  {
    Here(re, text) || (text != [] && (text[0] == c || c == '.') && Repeat(c, re, text[1..]))
  }

  predicate Somewhere(re: string, text: string)
    decreases |text|
  {
    Here(re, text) || (text != [] && Somewhere(re, text[1..]))
  }

  // ---------- it is the language

  lemma {:induction false} RepeatTakes(c: char, re: string, text: string, k: nat)
    requires k <= |text| && Piece(Star(c), text[..k]) && Here(re, text[k..])
    ensures Repeat(c, re, text)
    decreases k
  {
    if k > 0 {
      assert text[..k][0] == text[0];
      assert text[1..][..k - 1] == text[..k][1..] && text[1..][k - 1..] == text[k..];
      RepeatTakes(c, re, text[1..], k - 1);
    } else {
      assert text[0..] == text;
    }
  }

  lemma {:induction false} RepeatFinds(c: char, re: string, text: string) returns (k: nat)
    requires Repeat(c, re, text)
    ensures k <= |text| && Piece(Star(c), text[..k]) && Here(re, text[k..])
    decreases |text|
  {
    if Here(re, text) {
      k := 0;
      assert text[0..] == text;
    } else {
      k := RepeatFinds(c, re, text[1..]);
      assert text[..k + 1] == [text[0]] + text[1..][..k] && text[k + 1..] == text[1..][k..];
      k := k + 1;
    }
  }

  /** matchhere finds a match at the start of text exactly when there is one. */
  lemma {:induction false} HereExact(re: string, text: string)
    ensures Here(re, text) <==> Begins(Items(re), Anchored(re), text)
    decreases |re|
  {
    hide Begins;
    if re == [] {
      BeginsNil(false, text);
    } else if |re| >= 2 && re[1] == '*' {
      StarExact(re, text);
    } else if re == "$" {
      BeginsNil(true, text);
    } else {
      OneExact(re, text);
    }
  }

  lemma StarExact(re: string, text: string)
    requires |re| >= 2 && re[1] == '*'
    ensures Here(re, text) <==> Begins(Items(re), Anchored(re), text)
    decreases |re|, 0
  {
    hide Begins;
    var c, rest := re[0], re[2..];
    if Here(re, text) {
      var k := RepeatFinds(c, rest, text);
      HereExact(rest, text[k..]);
      BeginsCons(Star(c), Items(rest), Anchored(rest), text, k);
    }
    if Begins(Items(re), Anchored(re), text) {
      var k := BeginsUncons(Star(c), Items(rest), Anchored(rest), text);
      HereExact(rest, text[k..]);
      RepeatTakes(c, rest, text, k);
    }
  }

  lemma OneExact(re: string, text: string)
    requires re != [] && !(|re| >= 2 && re[1] == '*') && re != "$"
    ensures Here(re, text) <==> Begins(Items(re), Anchored(re), text)
    decreases |re|, 0
  {
    hide Begins;
    var x, rest := if re[0] == '.' then Any else Lit(re[0]), re[1..];
    if Here(re, text) {
      HereExact(rest, text[1..]);
      assert Piece(x, text[..1]);
      BeginsCons(x, Items(rest), Anchored(rest), text, 1);
    }
    if Begins(Items(re), Anchored(re), text) {
      var k := BeginsUncons(x, Items(rest), Anchored(rest), text);
      assert k == 1;
      assert text[..1][0] == text[0];
      HereExact(rest, text[1..]);
    }
  }

  lemma {:induction false} SomewhereExact(re: string, text: string)
    ensures Somewhere(re, text) <==> exists i: nat :: i <= |text| && Begins(Items(re), Anchored(re), text[i..])
    decreases |text|
  {
    hide Begins;
    HereExact(re, text);
    assert text[0..] == text;
    if text != [] {
      SomewhereExact(re, text[1..]);
      forall i: nat | i < |text| ensures text[1..][i..] == text[i + 1..] {
      }
      if i: nat :| i <= |text[1..]| && Begins(Items(re), Anchored(re), text[1..][i..]) {
        assert Begins(Items(re), Anchored(re), text[i + 1..]);
      }
      if i: nat :| 0 < i <= |text| && Begins(Items(re), Anchored(re), text[i..]) {
        assert text[1..][i - 1..] == text[i..];
      }
    }
  }

  // ---------- the code

  /** matchhere, at text+i. */
  method MatchHere(re: string, text: string, i: nat) returns (r: bool)
    requires i <= |text|
    ensures r == Here(re, text[i..])
    ensures r <==> Begins(Items(re), Anchored(re), text[i..])
    decreases |re|, 0
  {
    hide Begins;
    HereExact(re, text[i..]);
    if re == [] {
      return true;
    }
    if |re| >= 2 && re[1] == '*' {
      r := MatchStar(re[0], re[2..], text, i);
      return;
    }
    if re == "$" {
      return i == |text|;
    }
    if i < |text| && (re[0] == '.' || re[0] == text[i]) {
      assert text[i..][1..] == text[i + 1..];
      r := MatchHere(re[1..], text, i + 1);
      return;
    }
    return false;
  }

  /** matchstar: the do-while loop over the starred character. */
  method MatchStar(c: char, re: string, text: string, i: nat) returns (r: bool)
    requires i <= |text|
    ensures r == Repeat(c, re, text[i..])
    decreases |re|, 1
  {
    hide Begins;
    var at := i;
    while true
      invariant i <= at <= |text| && Repeat(c, re, text[at..]) == Repeat(c, re, text[i..])
      decreases |text| - at
    {
      var here := MatchHere(re, text, at);
      if here {
        return true;
      }
      if !(at < |text| && (text[at] == c || c == '.')) {
        return false;
      }
      assert text[at..][1..] == text[at + 1..];
      at := at + 1;
    }
  }

  /** match: 1 exactly when the text contains what the pattern denotes. */
  method Match(re: string, text: string) returns (r: bool)
    ensures r <==> Matches(re, text)
  {
    hide Begins;
    assert text[0..] == text;
    if re != [] && re[0] == '^' {
      r := MatchHere(re[1..], text, 0);
      return;
    }
    SomewhereExact(re, text);
    var at := 0;
    while true
      invariant at <= |text| && Somewhere(re, text[at..]) == Somewhere(re, text)
      decreases |text| - at
    {
      var here := MatchHere(re, text, at);
      if here {
        return true;
      }
      if at == |text| {
        return false;
      }
      assert text[at..][1..] == text[at + 1..];
      at := at + 1;
    }
  }
}
