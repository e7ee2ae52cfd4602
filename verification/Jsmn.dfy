/**
 The jsmn tokenizer (jsmn.c): one pass over the text, with an open bracket found again by
 searching the token array backwards. It is proved against the lexer and stack of JsmnSpec.
*/
module Jsmn {
  import opened JsmnSpec

  // ------------------------------------------------------------ forests of tokens

  function OpeningOf(k: Kind): char { if k == OBJECT then '{' else '[' }

  function ClosingOf(k: Kind): char { if k == OBJECT then '}' else ']' }

  predicate Container(k: Kind) {
    k == OBJECT || k == ARRAY
  }

  // Token t lies in the text before pos, between its own brackets or quotes.
  ghost predicate Placed(js: string, t: Token, pos: nat)
    requires pos <= |js|
  {
    && 0 <= t.start < pos
    && match t.kind
       case STRING => 0 < t.start <= t.end < pos && js[t.start - 1] == '\"' && js[t.end] == '\"'
       case PRIMITIVE => t.start < t.end <= pos
       case k => js[t.start] == OpeningOf(k) && (t.end == -1 || (t.start < t.end <= pos && js[t.end - 1] == ClosingOf(k)))
  }

  // t comes first: u is after it, or inside it, or t is still open.
  ghost predicate Ordered(t: Token, u: Token) {
    t.start < u.start && (t.end == -1 || t.end <= u.start || (u.end != -1 && u.end <= t.end))
  }

  // Tokens in the order of their starts, each pair disjoint or nested.
  ghost predicate Forest(js: string, toks: seq<Token>, pos: nat)
    requires pos <= |js|
  {
    (forall i :: 0 <= i < |toks| ==> Placed(js, toks[i], pos)) && forall i, j :: 0 <= i < j < |toks| ==> Ordered(toks[i], toks[j])
  }

  // The kinds of the open tokens, outermost first.
  function OpenKinds(toks: seq<Token>): seq<Kind> {
    if toks == [] then []
    else OpenKinds(toks[..|toks| - 1]) + (if toks[|toks| - 1].end == -1 then [toks[|toks| - 1].kind] else [])
  }

  // How many tokens have i as their parent.
  function Children(parents: seq<int>, i: int): nat {
    if parents == [] then 0
    else Children(parents[..|parents| - 1], i) + (if parents[|parents| - 1] == i then 1 else 0)
  }

  // Every token's size is the number of its children, and a parent comes before its children.
  ghost predicate Sized(toks: seq<Token>, parents: seq<int>) {
    && |parents| == |toks| && (forall j :: 0 <= j < |toks| ==> -1 <= parents[j] < j)
    && (forall i :: 0 <= i < |toks| ==> toks[i].size == Children(parents, i))
  }

  // p is the innermost token around token j, or -1 if there is none.
  ghost predicate Innermost(toks: seq<Token>, j: nat, p: int)
    requires -1 <= p < j < |toks|
  {
    && (forall k :: p < k < j ==> toks[k].end != -1 && toks[k].end <= toks[j].start)
    && (p >= 0 ==> toks[p].end == -1 || toks[j].start < toks[p].end)
  }

  // p is the innermost open token, or -1 if there is none.
  ghost predicate InnermostOpen(toks: seq<Token>, p: int)
    requires -1 <= p < |toks|
  {
    (forall k :: p < k < |toks| ==> toks[k].end != -1) && (p >= 0 ==> toks[p].end == -1)
  }

  predicate Structural(ch: char) {
    ch == ':' || ch == ',' || ch == '{' || ch == '}' || ch == '[' || ch == ']'
  }

  // Position x is not inside a string or a primitive.
  ghost predicate Bare(toks: seq<Token>, x: int) {
    forall k :: 0 <= k < |toks| && !Container(toks[k].kind) ==> !(toks[k].start <= x < toks[k].end)
  }

  /**
   The colon at c still rules at position to: p is the last token before it, and since then there were only values and
   commas, and commas only if p is a container, or if no container is open (top): others reset the superior token.
  */
  ghost predicate ColonRules(js: string, toks: seq<Token>, p: int, c: int, to: int, top: bool) {
    && 0 <= p < |toks| && 0 <= c < to <= |js| && js[c] == ':' && Bare(toks, c)
    && toks[p].start <= c && (forall k :: p < k < |toks| ==> c < toks[k].start)
    && forall x :: c < x < to && Structural(js[x]) && Bare(toks, x) ==> js[x] == ',' && (Container(toks[p].kind) || top)
  }

  ghost predicate ByColon(js: string, toks: seq<Token>, p: int, to: int, top: bool) {
    exists c :: ColonRules(js, toks, p, c, to, top)
  }

  // A token at position to is counted at p: the one before the colon that rules there, or else the innermost one.
  ghost predicate Superior(js: string, toks: seq<Token>, p: int, to: int, top: bool, innermost: bool) {
    ByColon(js, toks, p, to, top) || (innermost && forall q :: !ByColon(js, toks, q, to, top))
  }

  // The parent of token j is the superior one at its start.
  ghost predicate ParentOk(js: string, toks: seq<Token>, j: nat, p: int)
    requires -1 <= p < j < |toks|
  {
    Superior(js, toks, p, toks[j].start, Innermost(toks, j, -1), Innermost(toks, j, p))
  }

  // So it is for every token.
  ghost predicate Family(js: string, toks: seq<Token>, parents: seq<int>) {
    && |parents| == |toks| && (forall j :: 0 <= j < |toks| ==> -1 <= parents[j] < j)
    && (forall j :: 0 <= j < |toks| ==> ParentOk(js, toks, j, parents[j]))
  }

  // The superior token at position p.
  ghost predicate SuperOk(js: string, toks: seq<Token>, sup: int, p: nat) {
    -1 <= sup < |toks| && Superior(js, toks, sup, p, InnermostOpen(toks, -1), InnermostOpen(toks, sup))
  }

  /** At most one token is before a colon that rules. */
  lemma RulesUnique(js: string, toks: seq<Token>, p: int, q: int, to: int, top: bool)
    requires ByColon(js, toks, p, to, top) && ByColon(js, toks, q, to, top)
    ensures p == q
  {
    var c :| ColonRules(js, toks, p, c, to, top);
    var d :| ColonRules(js, toks, q, d, to, top);
  }

  // Sizes, and the ends of containers, do not matter.
  lemma RulesSame(js: string, a: seq<Token>, b: seq<Token>, to: int, top: bool)
    requires |a| == |b|
    requires forall i :: 0 <= i < |a| ==> a[i].kind == b[i].kind && a[i].start == b[i].start && (Container(a[i].kind) || a[i].end == b[i].end)
    ensures forall q :: ByColon(js, a, q, to, top) <==> ByColon(js, b, q, to, top)
  {
    forall q, c
      ensures ColonRules(js, a, q, c, to, top) <==> ColonRules(js, b, q, c, to, top)
    {
      BareSame(a, b);
      hide Bare, Structural, Container;
    }
    hide ColonRules;
  }

  lemma BareSame(a: seq<Token>, b: seq<Token>)
    requires |a| == |b|
    requires forall i :: 0 <= i < |a| ==> a[i].kind == b[i].kind && a[i].start == b[i].start && (Container(a[i].kind) || a[i].end == b[i].end)
    ensures forall x :: Bare(a, x) == Bare(b, x)
  {
  }

  // Neither do later tokens.
  lemma RulesAdd(js: string, toks: seq<Token>, t: Token, to: int, top: bool)
    requires to <= t.start
    ensures forall q :: ByColon(js, toks + [t], q, to, top) <==> ByColon(js, toks, q, to, top)
  {
    var r := toks + [t];
    forall q, c
      ensures ColonRules(js, r, q, c, to, top) <==> ColonRules(js, toks, q, c, to, top)
    {
      forall x | x < to
        ensures Bare(r, x) == Bare(toks, x)
      {
        BareAdd(toks, t, x);
      }
      assert r[|toks|] == t && forall k :: 0 <= k < |toks| ==> r[k] == toks[k];
      hide Bare, Structural, Container;
    }
    hide ColonRules;
  }

  lemma BareAdd(toks: seq<Token>, t: Token, x: int)
    ensures Bare(toks + [t], x) <==> Bare(toks, x) && (Container(t.kind) || !(t.start <= x < t.end))
  {
    var r := toks + [t];
    assert r[|toks|] == t;
    assert forall k :: 0 <= k < |toks| ==> r[k] == toks[k];
  }

  // Characters that are not structural, or inside a value, change nothing.
  lemma RulesMove(js: string, toks: seq<Token>, p: int, next: int, top: bool)
    requires 0 <= p <= next <= |js| && forall x :: p <= x < next ==> !(Structural(js[x]) && Bare(toks, x))
    ensures forall q :: ByColon(js, toks, q, next, top) <==> ByColon(js, toks, q, p, top)
  {
    forall q, c
      ensures ColonRules(js, toks, q, c, next, top) <==> ColonRules(js, toks, q, c, p, top)
    {
      hide Bare;
    }
    hide ColonRules;
  }

  // After a bracket no colon rules.
  lemma RulesEnd(js: string, toks: seq<Token>, p: int, to: int, top: bool)
    requires 0 <= p < |js| && to == p + 1 && Structural(js[p]) && js[p] != ':' && js[p] != ',' && Bare(toks, p)
    ensures forall q :: !ByColon(js, toks, q, to, top)
  {
    hide Bare;
  }

  // A comma ends the rule of a colon, unless the token before it is a container or none is open.
  lemma RulesComma(js: string, toks: seq<Token>, p: int, to: int, top: bool)
    requires 0 <= p < |js| && to == p + 1 && js[p] == ',' && Bare(toks, p)
    ensures forall q :: ByColon(js, toks, q, to, top) <==> 0 <= q < |toks| && ByColon(js, toks, q, p, top) && (Container(toks[q].kind) || top)
  {
    forall q, c
      ensures ColonRules(js, toks, q, c, to, top) <==> 0 <= q < |toks| && ColonRules(js, toks, q, c, p, top) && (Container(toks[q].kind) || top)
    {
      hide Bare, Container;
    }
    hide ColonRules, Container;
  }

  // Everything that is there is behind the parser.
  lemma BareHere(js: string, toks: seq<Token>, p: nat)
    requires p <= |js| && Forest(js, toks, p)
    ensures Bare(toks, p) && forall k :: 0 <= k < |toks| ==> toks[k].start < p && toks[k].end <= p
  {
    forall k | 0 <= k < |toks|
      ensures toks[k].start < p && toks[k].end <= p
    {
      assert Placed(js, toks[k], p);
    }
  }

  // The counter of token i goes up, if there is such a token.
  // A token as it was added.
  function Outline(t: Token): Token {
    Token(t.kind, t.start, if Container(t.kind) then -1 else t.end, 0)
  }

  function Outlines(toks: seq<Token>): (r: seq<Token>)
    ensures |r| == |toks|
  {
    seq(|toks|, i requires 0 <= i < |toks| => Outline(toks[i]))
  }

  // What parsing is to give: its result, and the tokens as they were added.
  datatype Goal = Goal(result: int, tokens: seq<Token>)

  // The tokens so far and those to come from position p are all that are to be given.
  ghost predicate AsLexed(js: string, len: nat, toks: seq<Token>, p: nat, all: seq<Token>)
    requires len <= |js|
  {
    Outlines(toks) + TokensFrom(js, len, p) == all
  }

  lemma LexedMore(js: string, len: nat, toks: seq<Token>, t: Token, p: nat, next: nat, all: seq<Token>)
    requires len <= |js| && AsLexed(js, len, toks, p, all) && TokensFrom(js, len, p) == [Outline(t)] + TokensFrom(js, len, next)
    ensures AsLexed(js, len, toks + [t], next, all)
  {
    hide TokensFrom, Outline;
    assert Outlines(toks + [t]) == Outlines(toks) + [Outline(t)];
  }

  ghost predicate SameOutlines(a: seq<Token>, b: seq<Token>) {
    |a| == |b| && forall i :: 0 <= i < |a| ==> Outline(a[i]) == Outline(b[i])
  }

  // A position without a token, or with a closing bracket that changes none of them.
  lemma LexedOn(js: string, len: nat, a: seq<Token>, b: seq<Token>, p: nat, all: seq<Token>)
    requires p < len <= |js| && (Lex(js, len, p).Colon? || Lex(js, len, p).Comma? || Lex(js, len, p).Space? || Lex(js, len, p).Close?)
    requires AsLexed(js, len, a, p, all) && SameOutlines(a, b)
    ensures AsLexed(js, len, b, p + 1, all)
  {
    assert TokensFrom(js, len, p) == TokensFrom(js, len, p + 1) by {
      hide Lex;
    }
    hide TokensFrom, Outline, Outlines, Lex;
    LexedSame(js, len, a, b, p, all);
  }

  lemma StillLexed(js: string, len: nat, toks: seq<Token>, p: nat, all: seq<Token>)
    requires p < len <= |js| && (Lex(js, len, p).Colon? || Lex(js, len, p).Comma? || Lex(js, len, p).Space?) && AsLexed(js, len, toks, p, all)
    ensures AsLexed(js, len, toks, p + 1, all)
  {
    hide Lex, AsLexed;
    LexedOn(js, len, toks, toks, p, all);
  }

  lemma SameOtherWay(a: seq<Token>, b: seq<Token>)
    requires SameOutlines(a, b)
    ensures SameOutlines(b, a)
  {
  }

  lemma ValueKind(js: string, len: nat, p: nat)
    requires len <= |js| && Lex(js, len, p).Value?
    ensures !Container(Lex(js, len, p).kind)
  {
  }

  // A position with a token, that becomes the last one.
  lemma LexedToken(js: string, len: nat, a: seq<Token>, b: seq<Token>, t: Token, p: nat, next: nat, all: seq<Token>)
    requires p < len <= |js| && AsLexed(js, len, a, p, all) && SameOutlines(b, a + [t]) && t.size == 0 && (Container(t.kind) ==> t.end == -1)
    requires var x := Lex(js, len, p);
             if Container(t.kind) then x == Open(t.kind) && t.start == p && next == p + 1
             else x.Value? && t == Token(x.kind, x.start, x.end, 0) && next == x.next
    ensures AsLexed(js, len, b, next, all)
  {
    assert TokensFrom(js, len, p) == [Outline(t)] + TokensFrom(js, len, next) by {
      hide Lex;
    }
    hide TokensFrom, Outline, Outlines, Lex;
    LexedMore(js, len, a, t, p, next, all);
    LexedSame(js, len, b, a + [t], next, all);
  }

  // Sizes, and the ends of containers, do not matter.
  lemma LexedSame(js: string, len: nat, a: seq<Token>, b: seq<Token>, p: nat, all: seq<Token>)
    requires len <= |js| && SameOutlines(a, b)
    ensures AsLexed(js, len, a, p, all) == AsLexed(js, len, b, p, all)
  {
    hide TokensFrom, Outline;
    assert Outlines(a) == Outlines(b);
  }

  function Bumped(toks: seq<Token>, i: int): (r: seq<Token>)
    requires -1 <= i < |toks|
    ensures |r| == |toks|
  {
    if i == -1 then toks else toks[i := toks[i].(size := toks[i].size + 1)]
  }

  lemma OpenKindsAdd(toks: seq<Token>, t: Token)
    ensures OpenKinds(toks + [t]) == if t.end == -1 then OpenKinds(toks) + [t.kind] else OpenKinds(toks)
  {
    assert (toks + [t])[..|toks|] == toks;
  }

  lemma {:induction false} OpenKindsSame(a: seq<Token>, b: seq<Token>)
    requires |a| == |b| && forall i :: 0 <= i < |a| ==> a[i].kind == b[i].kind && (a[i].end == -1 <==> b[i].end == -1)
    ensures OpenKinds(a) == OpenKinds(b)
  {
    if a != [] {
      OpenKindsSame(a[..|a| - 1], b[..|b| - 1]);
    }
  }

  // If i is the last open token, its kind is on top of the stack, and closing it pops the stack.
  lemma {:induction false} LastOpen(toks: seq<Token>, i: nat, end: int)
    requires i < |toks| && toks[i].end == -1 && end != -1 && forall j :: i < j < |toks| ==> toks[j].end != -1
    ensures OpenKinds(toks) != [] && OpenKinds(toks)[|OpenKinds(toks)| - 1] == toks[i].kind
    ensures OpenKinds(toks[i := toks[i].(end := end)]) == OpenKinds(toks)[..|OpenKinds(toks)| - 1]
  {
    var n := |toks| - 1;
    var r := toks[i := toks[i].(end := end)];
    if i < n {
      assert r[..n] == toks[..n][i := toks[i].(end := end)];
      LastOpen(toks[..n], i, end);
    } else {
      assert r[..n] == toks[..n];
    }
  }

  lemma {:induction false} NoneOpen(toks: seq<Token>)
    ensures OpenKinds(toks) == [] <==> forall j :: 0 <= j < |toks| ==> toks[j].end != -1
  {
    if toks != [] {
      var n := |toks| - 1;
      NoneOpen(toks[..n]);
      assert forall j :: 0 <= j < n ==> toks[..n][j] == toks[j];
    }
  }

  lemma ForestAdd(js: string, toks: seq<Token>, pos: nat, t: Token, next: nat)
    requires pos <= next <= |js| && Forest(js, toks, pos) && Placed(js, t, next) && pos <= t.start
    ensures Forest(js, toks + [t], next)
  {
    forall i | 0 <= i < |toks|
      ensures Placed(js, toks[i], next) && Ordered(toks[i], t)
    {
      assert Placed(js, toks[i], pos);
    }
  }

  lemma ForestMove(js: string, toks: seq<Token>, pos: nat, next: nat)
    requires pos <= next <= |js| && Forest(js, toks, pos)
    ensures Forest(js, toks, next)
  {
    forall i | 0 <= i < |toks|
      ensures Placed(js, toks[i], next)
    {
      assert Placed(js, toks[i], pos);
    }
  }

  lemma PlacedBump(js: string, t: Token, pos: nat, size: int)
    requires pos <= |js| && Placed(js, t, pos)
    ensures Placed(js, t.(size := size), pos)
  {
  }

  // The sizes do not matter for the forest.
  lemma ForestBump(js: string, toks: seq<Token>, pos: nat, i: int)
    requires pos <= |js| && Forest(js, toks, pos) && -1 <= i < |toks|
    ensures Forest(js, Bumped(toks, i), pos) && OpenKinds(Bumped(toks, i)) == OpenKinds(toks)
  {
    hide OpenKinds, Placed;
    OpenKindsSame(Bumped(toks, i), toks);
    if i != -1 {
      PlacedBump(js, toks[i], pos, toks[i].size + 1);
    }
  }

  lemma ForestClose(js: string, toks: seq<Token>, pos: nat, i: nat)
    requires pos < |js| && Forest(js, toks, pos) && i < |toks| && toks[i].end == -1 && forall j :: i < j < |toks| ==> toks[j].end != -1
    requires js[pos] == ClosingOf(toks[i].kind)
    ensures Forest(js, toks[i := toks[i].(end := pos + 1)], pos + 1)
  {
    var r := toks[i := toks[i].(end := pos + 1)];
    forall j | 0 <= j < |toks|
      ensures Placed(js, r[j], pos + 1)
    {
      assert Placed(js, toks[j], pos);
    }
    forall j, k | 0 <= j < k < |toks|
      ensures Ordered(r[j], r[k])
    {
      assert Ordered(toks[j], toks[k]);
      assert Placed(js, toks[k], pos);
    }
  }

  lemma ChildrenAdd(parents: seq<int>, p: int, i: int)
    ensures Children(parents + [p], i) == Children(parents, i) + if p == i then 1 else 0
  {
    assert (parents + [p])[..|parents|] == parents;
  }

  lemma {:induction false} NoChildren(parents: seq<int>, i: int)
    requires forall j :: 0 <= j < |parents| ==> parents[j] < i
    ensures Children(parents, i) == 0
  {
    if parents != [] {
      NoChildren(parents[..|parents| - 1], i);
    }
  }

  lemma SuperiorSame(js: string, a: seq<Token>, b: seq<Token>, p: int, to: int, top: bool, innermost: bool)
    requires forall q :: ByColon(js, a, q, to, top) <==> ByColon(js, b, q, to, top)
    ensures Superior(js, a, p, to, top, innermost) == Superior(js, b, p, to, top, innermost)
  {
    hide ByColon;
  }

  // What happens to the sizes, to the ends of containers around j and behind token j does not matter.
  lemma ParentStays(js: string, a: seq<Token>, b: seq<Token>, j: nat, p: int)
    requires -1 <= p < j < |a| && j < |b| && ParentOk(js, a, j, p) && a[j].start == b[j].start
    requires forall q :: ByColon(js, a, q, a[j].start, Innermost(a, j, -1)) <==> ByColon(js, b, q, a[j].start, Innermost(a, j, -1))
    requires Innermost(a, j, -1) == Innermost(b, j, -1) && Innermost(a, j, p) == Innermost(b, j, p)
    ensures ParentOk(js, b, j, p)
  {
    SuperiorSame(js, a, b, p, a[j].start, Innermost(a, j, -1), Innermost(a, j, p));
    hide Superior, Innermost, ByColon;
  }

  lemma ParentOfOld(js: string, toks: seq<Token>, t: Token, j: nat, p: int)
    requires -1 <= p < j < |toks| && toks[j].start <= t.start && ParentOk(js, toks, j, p)
    ensures ParentOk(js, toks + [t], j, p)
  {
    hide ParentOk, Innermost, ByColon;
    var r := toks + [t];
    RulesAdd(js, toks, t, toks[j].start, Innermost(toks, j, -1));
    InnermostSame(toks, r, j, -1);
    InnermostSame(toks, r, j, p);
    ParentStays(js, toks, r, j, p);
  }

  lemma ParentOfNew(js: string, toks: seq<Token>, t: Token, sup: int, p: nat)
    requires p <= t.start <= |js| && Forest(js, toks, p) && SuperOk(js, toks, sup, p)
    requires forall x :: p <= x < t.start ==> !Structural(js[x])
    ensures ParentOk(js, toks + [t], |toks|, sup)
  {
    BareHere(js, toks, p);
    hide Forest, Bare, ByColon, Superior, Innermost, InnermostOpen, Structural;
    var r, top, inside := toks + [t], InnermostOpen(toks, -1), InnermostOpen(toks, sup);
    assert r[|toks|] == t;
    SuperiorAt(js, toks, sup, p, t.start, top, inside);
    RulesAdd(js, toks, t, t.start, top);
    SuperiorSame(js, toks, r, sup, t.start, top, inside);
    InnermostNew(toks, t, -1);
    InnermostNew(toks, t, sup);
  }

  lemma FamilyAdd(js: string, toks: seq<Token>, parents: seq<int>, t: Token, sup: int, p: nat)
    requires p <= t.start <= |js| && Forest(js, toks, p) && Family(js, toks, parents) && SuperOk(js, toks, sup, p)
    requires forall x :: p <= x < t.start ==> !Structural(js[x])
    ensures Family(js, toks + [t], parents + [sup])
  {
    hide ParentOk;
    var r, ps := toks + [t], parents + [sup];
    BareHere(js, toks, p);
    SuperIn(js, toks, sup, p);
    hide Forest, SuperOk, Structural;
    forall j | 0 <= j < |r|
      ensures ParentOk(js, r, j, ps[j])
    {
      if j < |toks| {
        ParentOfOld(js, toks, t, j, parents[j]);
      } else {
        ParentOfNew(js, toks, t, sup, p);
      }
    }
  }

  lemma SuperiorAt(js: string, toks: seq<Token>, sup: int, p: nat, to: int, top: bool, innermost: bool)
    requires p <= to <= |js| && (forall x :: p <= x < to ==> !Structural(js[x])) && Superior(js, toks, sup, p, top, innermost)
    ensures Superior(js, toks, sup, to, top, innermost)
  {
    RulesMove(js, toks, p, to, top);
    hide ByColon;
  }

  lemma InnermostSame(a: seq<Token>, b: seq<Token>, j: nat, p: int)
    requires -1 <= p < j < |a| <= |b| && forall k :: 0 <= k <= j ==> a[k].start == b[k].start && a[k].end == b[k].end
    ensures Innermost(a, j, p) == Innermost(b, j, p)
  {
  }

  // A new token is in the innermost open one.
  lemma InnermostNew(toks: seq<Token>, t: Token, p: int)
    requires -1 <= p < |toks| && forall k :: 0 <= k < |toks| ==> toks[k].end <= t.start
    ensures Innermost(toks + [t], |toks|, p) <==> InnermostOpen(toks, p)
  {
    var r := toks + [t];
    assert r[|toks|] == t && forall k :: 0 <= k < |toks| ==> r[k] == toks[k];
  }

  lemma FamilyBump(js: string, toks: seq<Token>, parents: seq<int>, i: int, sup: int, p: nat)
    requires -1 <= i < |toks| && Family(js, toks, parents)
    ensures Family(js, Bumped(toks, i), parents)
    ensures SuperOk(js, toks, sup, p) ==> SuperOk(js, Bumped(toks, i), sup, p)
  {
    var r := Bumped(toks, i);
    if SuperOk(js, toks, sup, p) {
      SuperBump(js, toks, i, sup, p);
    }
    hide ByColon, ParentOk, Innermost, SuperOk;
    forall j | 0 <= j < |r|
      ensures ParentOk(js, r, j, parents[j])
    {
      RulesSame(js, toks, r, toks[j].start, Innermost(toks, j, -1));
      InnermostSame(toks, r, j, -1);
      InnermostSame(toks, r, j, parents[j]);
      ParentStays(js, toks, r, j, parents[j]);
    }
  }

  lemma SuperBump(js: string, toks: seq<Token>, i: int, sup: int, p: nat)
    requires -1 <= i < |toks| && SuperOk(js, toks, sup, p)
    ensures SuperOk(js, Bumped(toks, i), sup, p)
  {
    hide Superior, ByColon;
    var r, top := Bumped(toks, i), InnermostOpen(toks, -1);
    RulesSame(js, toks, r, p, top);
    SuperiorSame(js, toks, r, sup, p, top, InnermostOpen(toks, sup));
  }

  lemma FamilyClose(js: string, toks: seq<Token>, parents: seq<int>, i: nat, p: nat)
    requires p < |js| && Forest(js, toks, p) && Family(js, toks, parents) && i < |toks| && toks[i].end == -1 && Container(toks[i].kind)
    ensures Family(js, toks[i := toks[i].(end := p + 1)], parents)
  {
    var r := toks[i := toks[i].(end := p + 1)];
    BareHere(js, toks, p);
    hide ByColon, Forest, ParentOk, Innermost;
    forall j | 0 <= j < |r|
      ensures ParentOk(js, r, j, parents[j])
    {
      RulesSame(js, toks, r, toks[j].start, Innermost(toks, j, -1));
      InnermostClosed(toks, i, p + 1, j, -1);
      InnermostClosed(toks, i, p + 1, j, parents[j]);
      ParentStays(js, toks, r, j, parents[j]);
    }
  }

  // A token that ends now was around what came after it.
  lemma InnermostClosed(toks: seq<Token>, i: nat, end: int, j: nat, p: int)
    requires -1 <= p < j < |toks| && i < |toks| && toks[i].end == -1 && end != -1 && toks[j].start < end
    ensures Innermost(toks[i := toks[i].(end := end)], j, p) == Innermost(toks, j, p)
  {
    var r := toks[i := toks[i].(end := end)];
    assert r[j].start == toks[j].start && r[i].end == end && forall k :: 0 <= k < |r| && k != i ==> r[k] == toks[k];
    if p < i < j {
      assert !Innermost(toks, j, p) && !Innermost(r, j, p);
    }
  }

  // The superior token stays right when the parser moves on over a character that is not structural.
  lemma SuperMove(js: string, toks: seq<Token>, sup: int, p: nat)
    requires p < |js| && SuperOk(js, toks, sup, p) && !Structural(js[p])
    ensures SuperOk(js, toks, sup, p + 1)
  {
    RulesMove(js, toks, p, p + 1, InnermostOpen(toks, -1));
  }

  lemma SuperIn(js: string, toks: seq<Token>, sup: int, p: nat)
    requires SuperOk(js, toks, sup, p)
    ensures -1 <= sup < |toks|
  {
  }

  // Token t is the string or primitive that is read from p to next.
  ghost predicate Spans(js: string, t: Token, p: nat, next: nat)
    requires p < next <= |js|
  {
    || (t.kind == STRING && t.start == p + 1 <= t.end == next - 1 && js[p] == '\"' && js[next - 1] == '\"')
    || (t.kind == PRIMITIVE && t.start == p && t.end == next)
  }

  lemma SpansStart(js: string, t: Token, p: nat, next: nat)
    requires p < next <= |js| && Spans(js, t, p, next)
    ensures p <= t.start <= |js| && t.end != -1 && !Container(t.kind) && forall x :: p <= x < t.start ==> !Structural(js[x])
  {
  }

  lemma InnermostOpenAdd(toks: seq<Token>, t: Token, p: int)
    requires -1 <= p < |toks| && t.end != -1
    ensures InnermostOpen(toks + [t], p) == InnermostOpen(toks, p)
  {
    var r := toks + [t];
    assert r[|toks|] == t && forall k :: 0 <= k < |toks| ==> r[k] == toks[k];
  }

  // A value does not change it either.
  lemma SuperValue(js: string, toks: seq<Token>, t: Token, sup: int, p: nat, next: nat)
    requires p < next <= |js| && SuperOk(js, toks, sup, p) && Spans(js, t, p, next)
    ensures SuperOk(js, toks + [t], sup, next)
  {
    var r, top := toks + [t], InnermostOpen(toks, -1);
    RulesAdd(js, toks, t, p, top);
    forall x | p <= x < next
      ensures !(Structural(js[x]) && Bare(r, x))
    {
      BareAdd(toks, t, x);
    }
    RulesMove(js, r, p, next, top);
    InnermostOpenAdd(toks, t, -1);
    InnermostOpenAdd(toks, t, sup);
    hide ByColon, InnermostOpen;
  }

  // After an opening bracket the new token is superior.
  lemma SuperOpening(js: string, toks: seq<Token>, t: Token, p: nat)
    requires p < |js| && Forest(js, toks, p) && t.end == -1 && Container(t.kind) && (js[p] == '{' || js[p] == '[')
    ensures SuperOk(js, toks + [t], |toks|, p + 1)
  {
    BareHere(js, toks, p);
    BareAdd(toks, t, p);
    RulesEnd(js, toks + [t], p, p + 1, InnermostOpen(toks + [t], -1));
  }

  // After a closing bracket the innermost open token is superior.
  lemma SuperClosing(js: string, toks: seq<Token>, i: nat, sup: int, p: nat)
    requires p < |js| && Forest(js, toks, p) && i < |toks| && Container(toks[i].kind) && (js[p] == '}' || js[p] == ']')
    requires -1 <= sup < |toks| && InnermostOpen(toks[i := toks[i].(end := p + 1)], sup)
    ensures SuperOk(js, toks[i := toks[i].(end := p + 1)], sup, p + 1)
  {
    var r := toks[i := toks[i].(end := p + 1)];
    BareHere(js, toks, p);
    BareSame(toks, r);
    RulesEnd(js, r, p, p + 1, InnermostOpen(r, -1));
  }

  // After a colon the last token is superior.
  lemma SuperColon(js: string, toks: seq<Token>, p: nat)
    requires p < |js| && js[p] == ':' && Forest(js, toks, p)
    ensures SuperOk(js, toks, |toks| - 1, p + 1)
  {
    BareHere(js, toks, p);
    if toks != [] {
      assert ColonRules(js, toks, |toks| - 1, p, p + 1, InnermostOpen(toks, -1));
    }
  }

  // After a comma the superior token is the innermost open one, if it was no container and there is one; otherwise it stays.
  lemma SuperComma(js: string, toks: seq<Token>, sup: int, p: nat, inner: int)
    requires p < |js| && js[p] == ',' && Forest(js, toks, p) && SuperOk(js, toks, sup, p) && -1 <= inner < |toks| && InnermostOpen(toks, inner)
    ensures SuperOk(js, toks, if sup == -1 || Container(toks[sup].kind) || inner == -1 then sup else inner, p + 1)
  {
    BareHere(js, toks, p);
    var top := InnermostOpen(toks, -1);
    assert top == (inner == -1);
    RulesComma(js, toks, p, p + 1, top);
    if sup >= 0 && toks[sup].end == -1 {
      OpenIsContainer(js, toks, p, sup);
    }
    if ByColon(js, toks, sup, p, top) {
      forall q | ByColon(js, toks, q, p, top)
        ensures q == sup
      {
        RulesUnique(js, toks, q, sup, p, top);
      }
    }
    hide ByColon, Forest, Bare;
  }

  // A new token without children, counted at its parent.
  lemma SizedAdd(toks: seq<Token>, parents: seq<int>, t: Token, p: int)
    requires Sized(toks, parents) && t.size == 0 && -1 <= p < |toks|
    ensures Sized(Bumped(toks + [t], p), parents + [p])
    ensures Bumped(toks + [t], p) == Bumped(toks, p) + [t]
  {
    var r := Bumped(toks + [t], p);
    NoChildren(parents, |toks|);
    forall i | 0 <= i < |r|
      ensures r[i].size == Children(parents + [p], i)
    {
      ChildrenAdd(parents, p, i);
    }
  }

  // ------------------------------------------------------------ the tokenizer

  class Parser {
    var pos: nat
    var toknext: nat
    var toksuper: int

    constructor ()
      ensures pos == 0 && toknext == 0 && toksuper == -1
    {
      pos, toknext, toksuper := 0, 0, -1;
    }

    // The tokens so far, in an array of which num may be used; none in counting mode.
    ghost function Tokens(tokens: array?<Token>): seq<Token>
      reads this, tokens
    {
      if tokens == null || toknext > tokens.Length then [] else tokens[..toknext]
    }

    ghost predicate Fits(tokens: array?<Token>, num: nat)
      reads this
    {
      if tokens == null then toknext == 0 && toksuper == -1
      else num <= tokens.Length && toknext <= num && -1 <= toksuper < toknext
    }

    // Adds a token, if there is room (jsmn_alloc_token and jsmn_fill_token).
    method AddToken(tokens: array<Token>, num: nat, t: Token) returns (ok: bool)
      requires num <= tokens.Length && toknext <= num
      modifies this`toknext, tokens
      ensures ok <==> old(toknext) < num
      ensures Tokens(tokens) == if ok then old(Tokens(tokens)) + [t] else old(Tokens(tokens))
      ensures toknext == old(toknext) + if ok then 1 else 0
    {
      if toknext >= num {
        return false;
      }
      tokens[toknext] := t;
      toknext := toknext + 1;
      return true;
    }

    method ParsePrimitive(js: string, len: nat, tokens: array?<Token>, num: nat) returns (r: int)
      requires len <= |js| && !AtEnd(js, len, pos) && !Delimiter(js[pos]) && Fits(tokens, num)
      modifies this`pos, this`toknext, tokens
      ensures var e := PrimitiveEnd(js, len, old(pos));
              && (e < 0 ==> r == e && Tokens(tokens) == old(Tokens(tokens)) && toknext == old(toknext))
              && (e >= 0 ==> Added(tokens, num, r, old(Tokens(tokens)), Token(PRIMITIVE, old(pos), e, 0)) && (r == 0 ==> pos == e - 1))
      ensures r == 0 || r == ERROR_INVAL || r == ERROR_NOMEM
    {
      var start := pos;
      while pos < len && js[pos] != '\0' && !Delimiter(js[pos])
        invariant start <= pos <= len && (pos == start ==> !AtEnd(js, len, pos) && !Delimiter(js[pos]))
        invariant PrimitiveEnd(js, len, pos) == PrimitiveEnd(js, len, start)
        invariant toknext == old(toknext) && Tokens(tokens) == old(Tokens(tokens))
      {
        if Unprintable(js[pos]) {
          pos := start;
          return ERROR_INVAL;
        }
        pos := pos + 1;
      }
      if tokens == null {
        pos := pos - 1;
        return 0;
      }
      var ok := AddToken(tokens, num, Token(PRIMITIVE, start, pos, 0));
      if !ok {
        pos := start;
        return ERROR_NOMEM;
      }
      pos := pos - 1;
      return 0;
    }

    // What adding one token did: nothing in counting mode, and an error if there was no room.
    ghost predicate Added(tokens: array?<Token>, num: nat, r: int, toks: seq<Token>, t: Token)
      reads this, tokens
    {
      if tokens == null then r == 0 && toknext == 0
      else if |toks| < num then r == 0 && Tokens(tokens) == toks + [t] && toknext == |toks| + 1
      else r == ERROR_NOMEM
    }

    // The four digits of an escape at pos, which moves behind them as far as they go.
    method SkipHex(js: string, len: nat) returns (ok: bool)
      requires len <= |js| && pos <= len
      modifies this`pos
      ensures old(pos) <= pos <= len && HexEnd(js, len, old(pos), 4) == if ok then pos else ERROR_INVAL
    {
      hide Hex;
      ghost var h := HexEnd(js, len, pos, 4);
      var i := 0;
      while i < 4 && pos < len && js[pos] != '\0'
        invariant 0 <= i <= 4 && old(pos) <= pos <= len && h == HexEnd(js, len, pos, 4 - i)
      {
        if !Hex(js[pos]) {
          return false;
        }
        pos := pos + 1;
        i := i + 1;
      }
      return true;
    }

    // The escape sequence at pos: on success pos is at its last character.
    method SkipEscape(js: string, len: nat, start: nat) returns (ok: bool)
      requires len <= |js| && pos + 1 < len && js[pos] == '\\' && start <= pos
      modifies this`pos
      ensures ok ==> old(pos) < pos && pos < len && StringEnd(js, len, pos + 1) == StringEnd(js, len, old(pos))
      ensures !ok ==> pos == start && StringEnd(js, len, old(pos)) == ERROR_INVAL
    {
      hide HexEnd;
      pos := pos + 1;
      if js[pos] == 'u' {
        pos := pos + 1;
        var hex := SkipHex(js, len);
        if !hex {
          pos := start;
          return false;
        }
        pos := pos - 1;
      } else if js[pos] !in "\"/\\bfrnt" {
        pos := start;
        return false;
      }
      return true;
    }

    method ParseString(js: string, len: nat, tokens: array?<Token>, num: nat) returns (r: int)
      requires len <= |js| && pos < len && Fits(tokens, num)
      modifies this`pos, this`toknext, tokens
      ensures var e := StringEnd(js, len, old(pos) + 1);
              && (e < 0 ==> r == e && Tokens(tokens) == old(Tokens(tokens)) && toknext == old(toknext))
              && (e >= 0 ==> Added(tokens, num, r, old(Tokens(tokens)), Token(STRING, old(pos) + 1, e, 0)) && (r == 0 ==> pos == e))
      ensures r == 0 || r == ERROR_INVAL || r == ERROR_PART || r == ERROR_NOMEM
    {
      hide HexEnd;
      var start := pos;
      pos := pos + 1;
      while pos < len && js[pos] != '\0'
        invariant start < pos <= len
        invariant StringEnd(js, len, pos) == StringEnd(js, len, start + 1)
        invariant toknext == old(toknext) && Tokens(tokens) == old(Tokens(tokens))
        decreases len - pos
      {
        var c := js[pos];
        if c == '\"' {
          if tokens == null {
            return 0;
          }
          var ok := AddToken(tokens, num, Token(STRING, start + 1, pos, 0));
          if !ok {
            pos := start;
            return ERROR_NOMEM;
          }
          return 0;
        }
        if c == '\\' && pos + 1 < len {
          var ok := SkipEscape(js, len, start);
          if !ok {
            return ERROR_INVAL;
          }
        }
        pos := pos + 1;
      }
      pos := start;
      return ERROR_PART;
    }

    // The parser stands before position p; goal is what it will return.
    ghost predicate State(js: string, len: nat, tokens: array?<Token>, num: nat, parents: seq<int>, count: nat, p: nat, goal: Goal)
      reads this, tokens
    {
      && p <= len <= |js| && Fits(tokens, num)
      && if tokens == null then CountFrom(js, len, p, count) == goal.result
         else
           && Built(js, tokens, parents, p) && count == toknext && AsLexed(js, len, Tokens(tokens), p, goal.tokens)
           && Outcome(js, len, p, OpenKinds(Tokens(tokens)), count, num) == goal.result
    }

    ghost predicate Built(js: string, tokens: array<Token>, parents: seq<int>, p: nat)
      requires p <= |js|
      reads this, tokens
    {
      var toks := Tokens(tokens);
      Forest(js, toks, p) && Sized(toks, parents) && Family(js, toks, parents) && SuperOk(js, toks, toksuper, p)
    }

    // The size of the superior token, if there is one, goes up.
    method BumpSuper(tokens: array<Token>)
      requires toknext <= tokens.Length && -1 <= toksuper < toknext
      modifies tokens
      ensures Tokens(tokens) == Bumped(old(Tokens(tokens)), toksuper)
    {
      if toksuper != -1 {
        tokens[toksuper] := tokens[toksuper].(size := tokens[toksuper].size + 1);
      }
    }

    // An opening bracket.
    method OpenBracket(js: string, len: nat, tokens: array<Token>, num: nat, kind: Kind, ghost parents0: seq<int>)
        returns (r: int, ghost parents: seq<int>)
      requires pos < len <= |js| && Fits(tokens, num) && Built(js, tokens, parents0, pos) && Container(kind) && js[pos] == OpeningOf(kind)
      modifies this`toknext, this`toksuper, tokens
      ensures r == if old(toknext) >= num then ERROR_NOMEM else 0
      ensures r == 0 ==> Fits(tokens, num) && Built(js, tokens, parents, pos + 1) && toknext == old(toknext) + 1
      ensures r == 0 ==> OpenKinds(Tokens(tokens)) == OpenKinds(old(Tokens(tokens))) + [kind]
      ensures r == 0 ==> SameOutlines(Tokens(tokens), old(Tokens(tokens)) + [Token(kind, pos, -1, 0)])
    {
      hide Forest, Sized, OpenKinds, Family, SuperOk;
      ghost var toks := Tokens(tokens);
      var t := Token(kind, pos, -1, 0);
      SuperIn(js, toks, toksuper, pos);
      parents := parents0 + [toksuper];
      var ok := AddToken(tokens, num, t);
      if !ok {
        return ERROR_NOMEM, parents;
      }
      BumpSuper(tokens);
      toksuper := toknext - 1;
      ForestAdd(js, toks, pos, t, pos + 1);
      ForestBump(js, toks + [t], pos + 1, old(toksuper));
      OpenKindsAdd(toks, t);
      SizedAdd(toks, parents0, t, old(toksuper));
      FamilyAdd(js, toks, parents0, t, old(toksuper), pos);
      SuperOpening(js, toks, t, pos);
      FamilyBump(js, toks + [t], parents, old(toksuper), toksuper, pos + 1);
      return 0, parents;
    }

    // A string or primitive that has been added is counted at its parent.
    method CountValue(js: string, tokens: array<Token>, num: nat, ghost toks: seq<Token>, ghost t: Token, ghost p: nat, ghost next: nat,
        ghost parents0: seq<int>) returns (ghost parents: seq<int>)
      requires p <= next <= |js| && Forest(js, toks, p) && Sized(toks, parents0) && Family(js, toks, parents0) && SuperOk(js, toks, toksuper, p)
      requires p < next && Spans(js, t, p, next) && Placed(js, t, next) && t.size == 0
      requires num <= tokens.Length && toknext <= num && -1 <= toksuper < |toks| && Tokens(tokens) == toks + [t]
      modifies tokens
      ensures Built(js, tokens, parents, next) && OpenKinds(Tokens(tokens)) == OpenKinds(toks) && SameOutlines(Tokens(tokens), toks + [t])
    {
      SpansStart(js, t, p, next);
      hide Forest, Sized, OpenKinds, Placed, Family, SuperOk, Spans, Structural;
      parents := parents0 + [toksuper];
      BumpSuper(tokens);
      ForestAdd(js, toks, p, t, next);
      ForestBump(js, toks + [t], next, toksuper);
      OpenKindsAdd(toks, t);
      SizedAdd(toks, parents0, t, toksuper);
      FamilyAdd(js, toks, parents0, t, toksuper, p);
      SuperValue(js, toks, t, toksuper, p, next);
      FamilyBump(js, toks + [t], parents, toksuper, toksuper, next);
    }

    // The last open token before position n, or -1.
    method LastOpenBefore(tokens: array<Token>, n: nat) returns (i: int)
      requires n <= toknext <= tokens.Length
      ensures -1 <= i < n && (i >= 0 ==> tokens[i].end == -1)
      ensures forall j :: i < j < n ==> tokens[j].end != -1
    {
      i := n - 1;
      while i >= 0 && tokens[i].end != -1
        invariant -1 <= i < n && forall j :: i < j < n ==> tokens[j].end != -1
      {
        i := i - 1;
      }
    }

    // A closing bracket: the innermost open token must be of its kind.
    method CloseBracket(js: string, len: nat, tokens: array<Token>, num: nat, kind: Kind, ghost parents: seq<int>) returns (r: int)
      requires pos < len <= |js| && Fits(tokens, num) && Built(js, tokens, parents, pos) && js[pos] == ClosingOf(kind) && Container(kind)
      modifies this`toksuper, tokens
      ensures var stack := OpenKinds(old(Tokens(tokens)));
              if stack == [] || stack[|stack| - 1] != kind then r == ERROR_INVAL
              else r == 0 && Fits(tokens, num) && Built(js, tokens, parents, pos + 1) && OpenKinds(Tokens(tokens)) == stack[..|stack| - 1]
                   && SameOutlines(Tokens(tokens), old(Tokens(tokens)))
    {
      hide Forest, Sized, OpenKinds, Family, SuperOk;
      ghost var toks := Tokens(tokens);
      var i := LastOpenBefore(tokens, toknext);
      NoneOpen(toks);
      if i >= 0 {
        LastOpen(toks, i, pos + 1);
        if tokens[i].kind != kind {
          return ERROR_INVAL;
        }
        toksuper := -1;
        ForestClose(js, toks, pos, i);
        SizedClose(toks, parents, i, pos + 1);
        FamilyClose(js, toks, parents, i, pos);
        tokens[i] := tokens[i].(end := pos + 1);
        assert Tokens(tokens) == toks[i := toks[i].(end := pos + 1)];
      }
      if i == -1 {
        return ERROR_INVAL;
      }
      var k := LastOpenBefore(tokens, i + 1);
      if k >= 0 {
        toksuper := k;
      }
      SuperClosing(js, toks, i, toksuper, pos);
      return 0;
    }

    // A comma: the superior token becomes the innermost open one, if it was not a bracket.
    method CommaSuper(js: string, tokens: array<Token>, num: nat, ghost p: nat)
      requires Fits(tokens, num) && p < |js| && js[p] == ',' && Forest(js, Tokens(tokens), p) && SuperOk(js, Tokens(tokens), toksuper, p)
      modifies this`toksuper
      ensures Fits(tokens, num) && SuperOk(js, Tokens(tokens), toksuper, p + 1)
    {
      hide SuperOk, Forest;
      ghost var toks := Tokens(tokens);
      ghost var inner := InnermostOf(toks);
      SuperComma(js, toks, toksuper, p, inner);
      SuperIn(js, toks, toksuper, p);
      if toksuper != -1 && !Container(tokens[toksuper].kind) {
        var i := toknext - 1;
        while i >= 0 && !(Container(tokens[i].kind) && tokens[i].end == -1)
          invariant -1 <= i < toknext && toksuper == old(toksuper) && inner <= i
        {
          OpenIsContainer(js, toks, p, i);
          i := i - 1;
        }
        if i >= 0 {
          toksuper := i;
        }
      }
    }

    // A string or a primitive.
    method ParseValue(js: string, len: nat, tokens: array?<Token>, num: nat, ghost parents0: seq<int>)
        returns (r: int, ghost parents: seq<int>)
      requires len <= |js| && Fits(tokens, num) && (Lex(js, len, pos).Value? || Lex(js, len, pos).Fail?)
      requires tokens != null ==> Built(js, tokens, parents0, pos)
      modifies this`pos, this`toknext, tokens
      ensures var x := Lex(js, len, old(pos));
              && (x.Fail? ==> r == x.error)
              && (x.Value? && tokens == null ==> r == 0 && Fits(tokens, num) && pos + 1 == x.next)
              && (x.Value? && tokens != null && old(toknext) >= num ==> r == ERROR_NOMEM)
              && (x.Value? && tokens != null && old(toknext) < num ==>
                    r == 0 && Fits(tokens, num) && pos + 1 == x.next && Built(js, tokens, parents, x.next) && toknext == old(toknext) + 1
                    && OpenKinds(Tokens(tokens)) == OpenKinds(old(Tokens(tokens)))
                    && SameOutlines(Tokens(tokens), old(Tokens(tokens)) + [Token(x.kind, x.start, x.end, 0)]))
    {
      hide OpenKinds, Sized, Forest, Family, SuperOk, SameOutlines, AsLexed;
      ghost var toks, p, x := Tokens(tokens), pos, Lex(js, len, pos);
      parents := parents0;
      if js[pos] == '\"' {
        r := ParseString(js, len, tokens, num);
      } else {
        r := ParsePrimitive(js, len, tokens, num);
      }
      if r < 0 {
        return;
      }
      if tokens != null {
        ghost var t := Token(x.kind, x.start, x.end, 0);
        LexSpans(js, len, p);
        parents := CountValue(js, tokens, num, toks, t, p, x.next, parents0);
      }
    }

    lemma StaysBuilt(js: string, tokens: array?<Token>, parents: seq<int>, p: nat)
      requires p < |js| && !Structural(js[p])
      ensures tokens != null && Built(js, tokens, parents, p) ==> Built(js, tokens, parents, p + 1)
    {
      hide Forest, SuperOk;
      if tokens != null && Built(js, tokens, parents, p) {
        ForestMove(js, Tokens(tokens), p, p + 1);
        SuperMove(js, Tokens(tokens), toksuper, p);
      }
    }

    // After a colon the superior token is the key.
    method AfterColon(js: string, len: nat, tokens: array?<Token>, num: nat, ghost count: nat, ghost parents: seq<int>, ghost goal: Goal)
      requires State(js, len, tokens, num, parents, count, pos, goal) && !AtEnd(js, len, pos) && js[pos] == ':'
      modifies this`toksuper
      ensures State(js, len, tokens, num, parents, count, pos + 1, goal)
    {
      hide OpenKinds, Sized, Forest, Family, SuperOk, SameOutlines, AsLexed;
      if tokens != null {
        ForestMove(js, Tokens(tokens), pos, pos + 1);
        SuperColon(js, Tokens(tokens), pos);
        StillLexed(js, len, Tokens(tokens), pos, goal.tokens);
      }
      toksuper := toknext - 1;
    }

    method AfterComma(js: string, len: nat, tokens: array?<Token>, num: nat, ghost count: nat, ghost parents: seq<int>, ghost goal: Goal)
      requires State(js, len, tokens, num, parents, count, pos, goal) && !AtEnd(js, len, pos) && js[pos] == ','
      modifies this`toksuper
      ensures State(js, len, tokens, num, parents, count, pos + 1, goal)
    {
      hide OpenKinds, Sized, Forest, Family, SuperOk, SameOutlines, AsLexed;
      if tokens != null {
        ForestMove(js, Tokens(tokens), pos, pos + 1);
        StillLexed(js, len, Tokens(tokens), pos, goal.tokens);
        CommaSuper(js, tokens, num, pos);
      }
    }

    method AfterSpace(js: string, len: nat, tokens: array?<Token>, num: nat, ghost count: nat, ghost parents: seq<int>, ghost goal: Goal)
      requires State(js, len, tokens, num, parents, count, pos, goal) && !AtEnd(js, len, pos)
      requires js[pos] == '\t' || js[pos] == '\r' || js[pos] == '\n' || js[pos] == ' '
      ensures State(js, len, tokens, num, parents, count, pos + 1, goal)
    {
      hide OpenKinds, Sized, Forest, Family, SuperOk, SameOutlines, AsLexed;
      StaysBuilt(js, tokens, parents, pos);
      if tokens != null {
        StillLexed(js, len, Tokens(tokens), pos, goal.tokens);
      }
    }

    method AfterOpening(js: string, len: nat, tokens: array?<Token>, num: nat, ghost count: nat, ghost parents0: seq<int>, ghost goal: Goal)
        returns (r: int, ghost parents: seq<int>)
      requires State(js, len, tokens, num, parents0, count, pos, goal) && !AtEnd(js, len, pos) && (js[pos] == '{' || js[pos] == '[')
      modifies this`toknext, this`toksuper, tokens
      ensures if r < 0 then r == goal.result else State(js, len, tokens, num, parents, count + 1, pos + 1, goal)
    {
      hide OpenKinds, Sized, Forest, Family, SuperOk, SameOutlines, AsLexed;
      r, parents := 0, parents0;
      if tokens != null {
        ghost var toks := Tokens(tokens);
        var kind := if js[pos] == '{' then OBJECT else ARRAY;
        r, parents := OpenBracket(js, len, tokens, num, kind, parents0);
        if r == 0 {
          LexedToken(js, len, toks, Tokens(tokens), Token(kind, pos, -1, 0), pos, pos + 1, goal.tokens);
        }
      }
    }

    method AfterClosing(js: string, len: nat, tokens: array?<Token>, num: nat, ghost count: nat, ghost parents: seq<int>, ghost goal: Goal)
        returns (r: int)
      requires State(js, len, tokens, num, parents, count, pos, goal) && !AtEnd(js, len, pos) && (js[pos] == '}' || js[pos] == ']')
      modifies this`toksuper, tokens
      ensures if r < 0 then r == goal.result else State(js, len, tokens, num, parents, count, pos + 1, goal)
    {
      hide OpenKinds, Sized, Forest, Family, SuperOk, SameOutlines, AsLexed;
      r := 0;
      if tokens != null {
        ghost var toks := Tokens(tokens);
        r := CloseBracket(js, len, tokens, num, if js[pos] == '}' then OBJECT else ARRAY, parents);
        if r == 0 {
          SameOtherWay(Tokens(tokens), toks);
          LexedOn(js, len, toks, Tokens(tokens), pos, goal.tokens);
        }
      }
    }

    method AfterValue(js: string, len: nat, tokens: array?<Token>, num: nat, ghost count: nat, ghost parents0: seq<int>, ghost goal: Goal)
        returns (r: int, ghost parents: seq<int>)
      requires State(js, len, tokens, num, parents0, count, pos, goal) && !AtEnd(js, len, pos)
      requires js[pos] != '{' && js[pos] != '[' && js[pos] != '}' && js[pos] != ']' && js[pos] != ':' && js[pos] != ','
      requires js[pos] != '\t' && js[pos] != '\r' && js[pos] != '\n' && js[pos] != ' '
      modifies this`pos, this`toknext, tokens
      ensures if r < 0 then r == goal.result else old(pos) <= pos && State(js, len, tokens, num, parents, count + 1, pos + 1, goal)
    {
      hide OpenKinds, Sized, Forest, Family, SuperOk, SameOutlines, AsLexed;
      ghost var toks, p, x := Tokens(tokens), pos, Lex(js, len, pos);
      r, parents := ParseValue(js, len, tokens, num, parents0);
      if r == 0 && tokens != null {
        ValueKind(js, len, p);
        LexedToken(js, len, toks, Tokens(tokens), Token(x.kind, x.start, x.end, 0), p, x.next, goal.tokens);
      }
    }

    method MoveOn(js: string, len: nat, tokens: array?<Token>, num: nat, ghost count: nat, ghost parents: seq<int>, ghost goal: Goal)
      requires State(js, len, tokens, num, parents, count, pos + 1, goal)
      modifies this`pos
      ensures pos == old(pos) + 1 && State(js, len, tokens, num, parents, count, pos, goal)
    {
      hide OpenKinds, Sized, Forest, Family, SuperOk, SameOutlines, AsLexed, Outcome, CountFrom;
      pos := pos + 1;
    }

    // One turn of the loop: the character at pos.
    method Step(js: string, len: nat, tokens: array?<Token>, num: nat, count0: nat, ghost parents0: seq<int>, ghost goal: Goal)
        returns (r: int, count: nat, ghost parents: seq<int>)
      requires len <= |js| && State(js, len, tokens, num, parents0, count0, pos, goal) && !AtEnd(js, len, pos)
      modifies this, tokens
      ensures if r < 0 then r == goal.result else old(pos) < pos && State(js, len, tokens, num, parents, count, pos, goal)
    {
      hide State;
      r, count, parents := 0, count0, parents0;
      match js[pos] {
        case '{' | '[' =>
          count := count + 1;
          r, parents := AfterOpening(js, len, tokens, num, count0, parents0, goal);
        case '}' | ']' =>
          r := AfterClosing(js, len, tokens, num, count0, parents0, goal);
        case '\t' | '\r' | '\n' | ' ' =>
          AfterSpace(js, len, tokens, num, count0, parents0, goal);
        case ':' =>
          AfterColon(js, len, tokens, num, count0, parents0, goal);
        case ',' =>
          AfterComma(js, len, tokens, num, count0, parents0, goal);
        case _ =>
          r, parents := AfterValue(js, len, tokens, num, count0, parents0, goal);
          count := count + 1;
      }
      if r < 0 {
        return;
      }
      MoveOn(js, len, tokens, num, count, parents, goal);
    }

    /**
     jsmn_parse: the result is that of the reference parser, in the counting mode that of the lexer alone.
     On success the tokens are a forest without open brackets, and sizes count children.
     Parsing may start afresh or go on after an error that left the tokens in order.
    */
    method Parse(js: string, len: nat, tokens: array?<Token>, num: nat, ghost parents0: seq<int>) returns (r: int, ghost parents: seq<int>)
      requires pos <= len <= |js| && Fits(tokens, num) && (tokens != null ==> Built(js, tokens, parents0, pos))
      modifies this, tokens
      ensures tokens == null ==> r == CountFrom(js, len, old(pos), 0)
      ensures tokens != null ==> r == Outcome(js, len, old(pos), OpenKinds(old(Tokens(tokens))), old(toknext), num)
      ensures tokens != null && r >= 0 ==>
                pos <= len && AtEnd(js, len, pos) && r == toknext <= tokens.Length && Built(js, tokens, parents, pos) && forall i :: 0 <= i < r ==> tokens[i].end != -1
      ensures tokens != null && r >= 0 ==> Outlines(Tokens(tokens)) == Outlines(old(Tokens(tokens))) + TokensFrom(js, len, old(pos))
    {
      hide OpenKinds, Sized, Forest, Lex, Family, SuperOk;
      ghost var goal := Goal(if tokens == null then CountFrom(js, len, pos, 0) else Outcome(js, len, pos, OpenKinds(Tokens(tokens)), toknext, num),
        Outlines(Tokens(tokens)) + TokensFrom(js, len, pos));
      var count := toknext;
      parents := parents0;
      while !AtEnd(js, len, pos)
        invariant State(js, len, tokens, num, parents, count, pos, goal)
        decreases len - pos
      {
        r, count, parents := Step(js, len, tokens, num, count, parents, goal);
        if r < 0 {
          return;
        }
      }
      StopHere(js, len, pos);
      if tokens != null {
        NoneOpen(Tokens(tokens));
        var i := LastOpenBefore(tokens, toknext);
        if i >= 0 {
          return ERROR_PART, parents;
        }
      }
      return count, parents;
    }
  }

  // The last open token.
  lemma InnermostOf(toks: seq<Token>) returns (p: int)
    ensures -1 <= p < |toks| && InnermostOpen(toks, p)
  {
    p := |toks| - 1;
    while p >= 0 && toks[p].end != -1
      invariant -1 <= p < |toks| && forall k :: p < k < |toks| ==> toks[k].end != -1
    {
      p := p - 1;
    }
  }

  lemma LexSpans(js: string, len: nat, p: nat)
    requires len <= |js| && Lex(js, len, p).Value?
    ensures var x := Lex(js, len, p); Spans(js, Token(x.kind, x.start, x.end, 0), p, x.next)
  {
  }

  lemma OpenIsContainer(js: string, toks: seq<Token>, p: nat, i: nat)
    requires p <= |js| && Forest(js, toks, p) && i < |toks|
    ensures toks[i].end == -1 ==> Container(toks[i].kind)
  {
    assert Placed(js, toks[i], p);
  }

  lemma SizedClose(toks: seq<Token>, parents: seq<int>, i: nat, end: int)
    requires Sized(toks, parents) && i < |toks|
    ensures Sized(toks[i := toks[i].(end := end)], parents)
  {
    hide Children;
  }

  lemma StopHere(js: string, len: nat, pos: nat)
    requires len <= |js| && AtEnd(js, len, pos)
    ensures Lex(js, len, pos).Stop?
  {
  }

  /** In a forest without open tokens any two tokens are disjoint or nested, and come in the order of their starts. */
  lemma DisjointOrNested(js: string, toks: seq<Token>, pos: nat, i: nat, j: nat)
    requires pos <= |js| && Forest(js, toks, pos) && (forall k :: 0 <= k < |toks| ==> toks[k].end != -1) && i < j < |toks|
    ensures toks[i].start < toks[j].start && (toks[i].end <= toks[j].start || toks[j].end <= toks[i].end)
    ensures 0 <= toks[i].start <= toks[i].end <= |js|
    ensures toks[i].kind == OBJECT ==> toks[i].start < toks[i].end && js[toks[i].start] == '{' && js[toks[i].end - 1] == '}'
    ensures toks[i].kind == ARRAY ==> toks[i].start < toks[i].end && js[toks[i].start] == '[' && js[toks[i].end - 1] == ']'
    ensures toks[i].kind == STRING ==> 0 < toks[i].start && toks[i].end < |js| && js[toks[i].start - 1] == '\"' && js[toks[i].end] == '\"'
  {
    assert Ordered(toks[i], toks[j]);
    assert Placed(js, toks[i], pos);
  }

  /** A fresh parse with room for num tokens succeeds exactly on balanced texts with at most num tokens, and agrees with counting. */
  lemma FreshParse(js: string, len: nat, num: nat)
    requires len <= |js|
    ensures Outcome(js, len, 0, [], 0, num) >= 0 <==> Balanced(js, len, 0, []) && CountFrom(js, len, 0, 0) <= num
    ensures Outcome(js, len, 0, [], 0, num) >= 0 ==> Outcome(js, len, 0, [], 0, num) == CountFrom(js, len, 0, 0)
  {
    SucceedsIff(js, len, 0, [], 0, num);
  }
}
