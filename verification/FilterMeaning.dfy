/** The text of a filter means its abstract syntax: evaluating the printed form
    gives the value of the tree, with no error. */
module FilterMeaning {
  import opened Common
  import opened Search
  import opened Strings
  import opened Wildcard
  import opened Filter

  datatype Ast =
    | And(parts: seq<Ast>)
    | Or(parts: seq<Ast>)
    | Not(part: Ast)
    | Equal(attr: string, value: string)
    | Present(attr: string)
    | Substring(attr: string, pieces: seq<string>)

  /** Attribute descriptions that cannot be taken for an operator or a parenthesis. */
  predicate ValidAttr(a: string) {
    && a != [] && '=' !in a && '(' !in a && ')' !in a
    && a[0] != '&' && a[0] != '|' && a[0] != '!' && !Operator(a[|a| - 1])
  }

  predicate Valid(t: Ast) {
    match t
    case And(ps) => ps != [] && forall i :: 0 <= i < |ps| ==> Valid(ps[i])
    case Or(ps) => ps != [] && forall i :: 0 <= i < |ps| ==> Valid(ps[i])
    case Not(p) => Valid(p)
    case Equal(a, v) => ValidAttr(a) && '*' !in v
    case Present(a) => ValidAttr(a)
    case Substring(a, ps) => ValidAttr(a) && |ps| >= 2 && forall p <- ps :: '*' !in p
  }

  /** The text is made of the pieces, in order and apart, the first at its beginning and
      the last at its end.  A piece stands for its own characters, stars included. */
  predicate Spread(ps: seq<string>, v: string)
    decreases |ps|
  {
    if ps == [] then false
    else if |ps| == 1 then v == Fold(ps[0])
    else
      Fold(ps[0]) <= v && exists k :: |ps[0]| <= k <= |v| && Spread(ps[1..], v[k..])
  }

  /** What a filter means for an object. */
  predicate Eval(look: Lookup, t: Ast) {
    match t
    case And(ps) => forall i :: 0 <= i < |ps| ==> Eval(look, ps[i])
    case Or(ps) => exists i :: 0 <= i < |ps| && Eval(look, ps[i])
    case Not(p) => !Eval(look, p)
    case Equal(a, v) => look(a).Some? && Fold(look(a).value) == Fold(v)
    case Present(a) => look(a).Some?
    case Substring(a, ps) => look(a).Some? && Spread(ps, Fold(look(a).value))
  }

  function Body(t: Ast): string
    decreases t, 0
  {
    match t
    case And(ps) => "&" + PrintAll(ps)
    case Or(ps) => "|" + PrintAll(ps)
    case Not(p) => "!" + Print(p)
    case Equal(a, v) => a + "=" + Escape(v)
    case Present(a) => a + "=" + "*"
    case Substring(a, ps) => a + "=" + EscapeJoin(ps)
  }

  function Print(t: Ast): string
    decreases t, 1
  {
    "(" + Body(t) + ")"
  }

  function PrintAll(ts: seq<Ast>): string
    decreases ts
  {
    if ts == [] then [] else Print(ts[0]) + PrintAll(ts[1..])
  }

  function EscapeJoin(ps: seq<string>): string {
    if ps == [] then [] else if |ps| == 1 then Escape(ps[0]) else Escape(ps[0]) + "*" + EscapeJoin(ps[1..])
  }

  function Printed(ts: seq<Ast>): (r: seq<string>)
    ensures |r| == |ts| && forall i :: 0 <= i < |ts| ==> r[i] == Print(ts[i])
  {
    seq(|ts|, i requires 0 <= i < |ts| => Print(ts[i]))
  }

  // ---------- Balanced text ----------

  /** Opening minus closing parentheses. */
  function Net(t: string): int {
    if t == [] then 0
    else Net(t[..|t| - 1]) + (var c := t[|t| - 1]; if c == '(' then 1 else if c == ')' then -1 else 0)
  }

  predicate Balanced(t: string) {
    Net(t) == 0 && forall k :: 0 <= k <= |t| ==> Net(t[..k]) >= 0
  }

  lemma {:induction false} NetConcat(a: string, b: string)
    ensures Net(a + b) == Net(a) + Net(b)
  {
    if b == [] {
      assert a + b == a;
    } else {
      var b' := b[..|b| - 1];
      assert (a + b)[..|a + b| - 1] == a + b';
      NetConcat(a, b');
    }
  }

  lemma BalancedConcat(a: string, b: string)
    requires Balanced(a) && Balanced(b)
    ensures Balanced(a + b)
  {
    NetConcat(a, b);
    forall k | 0 <= k <= |a + b| ensures Net((a + b)[..k]) >= 0 {
      if k <= |a| {
        assert (a + b)[..k] == a[..k];
      } else {
        assert (a + b)[..k] == a + b[..k - |a|];
        NetConcat(a, b[..k - |a|]);
      }
    }
  }

  lemma Parenthesised(b: string)
    requires Balanced(b)
    ensures Balanced("(" + b + ")")
  {
    var t := "(" + b + ")";
    assert t[..|t| - 1] == "(" + b;
    NetConcat("(", b);
    assert Net("(") == 1;
    forall k | 0 <= k <= |t| ensures Net(t[..k]) >= 0 {
      if k == 0 {
        assert t[..k] == [];
      } else if k <= |b| + 1 {
        assert t[..k] == "(" + b[..k - 1];
        NetConcat("(", b[..k - 1]);
      } else {
        assert t[..k] == t;
      }
    }
  }

  lemma {:induction false} PlainNet(t: string)
    requires '(' !in t && ')' !in t
    ensures Net(t) == 0
  {
    if t != [] {
      PlainNet(t[..|t| - 1]);
    }
  }

  lemma PlainBalanced(t: string)
    requires '(' !in t && ')' !in t
    ensures Balanced(t)
  {
    PlainNet(t);
    forall k | 0 <= k <= |t| ensures Net(t[..k]) >= 0 {
      PlainNet(t[..k]);
    }
  }

  lemma SliceFront(s: string, i: nat, t: string)
    requires t != [] && i + |t| <= |s| && s[i..i + |t|] == t
    ensures s[i..i + |t| - 1] == t[..|t| - 1] && s[i + |t| - 1] == t[|t| - 1]
  {
    SliceOfSlice(s, i, i + |t|, 0, |t| - 1);
    assert s[i..i + |t|][|t| - 1] == s[i + |t| - 1];
  }

  lemma SliceInner(s: string, i: nat, p: string)
    requires |p| >= 2 && i + |p| <= |s| && s[i..i + |p|] == p
    ensures s[i] == p[0] && s[i + |p| - 1] == p[|p| - 1] && s[i + 1..i + |p| - 1] == p[1..|p| - 1]
  {
    assert s[i..i + |p|][0] == s[i];
    assert s[i..i + |p|][|p| - 1] == s[i + |p| - 1];
    SliceOfSlice(s, i, i + |p|, 1, |p| - 1);
  }

  /** Within a part the scan only keeps count. */
  lemma {:induction false} ScanThrough(s: string, i: nat, t: string, depth: nat, start: int)
    requires i + |t| <= |s| && s[i..i + |t|] == t && 0 <= start < i
    requires depth >= 1 && forall k :: 0 <= k <= |t| ==> depth + Net(t[..k]) >= 1
    ensures depth + Net(t) >= 1
    ensures SplitAt(s, i, depth, start) == SplitAt(s, i + |t|, depth + Net(t), start)
    decreases |t|
  {
    assert t[..|t|] == t;
    if t != [] {
      var t' := t[..|t| - 1];
      forall k | 0 <= k <= |t'| ensures depth + Net(t'[..k]) >= 1 {
        assert t'[..k] == t[..k];
      }
      SliceFront(s, i, t);
      ScanThrough(s, i, t', depth, start);
    }
  }

  function Concat(ps: seq<string>): string {
    if ps == [] then [] else ps[0] + Concat(ps[1..])
  }

  predicate Part(p: string) {
    |p| >= 2 && p[0] == '(' && p[|p| - 1] == ')' && Balanced(p[1..|p| - 1])
  }

  lemma SplitsOne(s: string, i: nat, p: string, start: int)
    requires i + |p| <= |s| && s[i..i + |p|] == p && Part(p)
    ensures SplitAt(s, i, 0, start) == Prepend([p], SplitAt(s, i + |p|, 0, i))
  {
    hide Net, SplitAt;
    var b := p[1..|p| - 1];
    var close := i + 1 + |b|;
    SliceInner(s, i, p);
    ScanThrough(s, i + 1, b, 1, i);
    ScanEnds(s, i, close, start, b, p);
  }

  lemma ScanEnds(s: string, i: nat, close: nat, start: int, b: string, p: string)
    requires i < close < |s| && s[i] == '(' && s[close] == ')' && p == s[i..close + 1]
    requires SplitAt(s, i + 1, 1, i) == SplitAt(s, close, 1, i)
    ensures SplitAt(s, i, 0, start) == Prepend([p], SplitAt(s, close + 1, 0, i))
  {
    assert SplitAt(s, i, 0, start) == SplitAt(s, i + 1, 1, i);
  }

  /** Splitting inverts the concatenation of balanced parts. */
  lemma {:induction false} SplitInverts(s: string, i: nat, ps: seq<string>, start: int)
    requires i <= |s| && s[i..] == Concat(ps) && forall p <- ps :: Part(p)
    ensures SplitAt(s, i, 0, start) == Ok(ps)
    decreases |ps|
  {
    hide Part, Net;
    if ps != [] {
      assert s[i..][..|ps[0]|] == ps[0] && s[i..][|ps[0]|..] == Concat(ps[1..]);
      assert s[i..i + |ps[0]|] == ps[0] && s[i + |ps[0]|..] == Concat(ps[1..]);
      SplitsOne(s, i, ps[0], start);
      SplitInverts(s, i + |ps[0]|, ps[1..], i);
      assert [ps[0]] + ps[1..] == ps;
    } else {
      assert i == |s|;
    }
  }

  lemma NetFront(t: string)
    requires t != ""
    ensures Net(t) == Net([t[0]]) + Net(t[1..])
  {
    assert t == [t[0]] + t[1..];
    NetConcat([t[0]], t[1..]);
  }

  lemma NetOfOne(c: char)
    ensures Net([c]) == if c == '(' then 1 else if c == ')' then -1 else 0
  {
    assert [c][..0] == "";
  }

  /** Never below zero from `depth` on, and zero at the end. */
  ghost predicate Closes(t: string, depth: int) {
    depth + Net(t) == 0 && forall k :: 0 <= k <= |t| ==> depth + Net(t[..k]) >= 0
  }

  lemma ClosesOn(t: string, depth: int)
    requires t != ""
    ensures Closes(t, depth) <==> depth >= 0 && Closes(t[1..], depth + Net([t[0]]))
  {
    hide Net;
    NetFront(t);
    forall k | 1 <= k <= |t|
      ensures Net(t[..k]) == Net([t[0]]) + Net(t[1..][..k - 1])
    {
      NetFront(t[..k]);
      assert t[..k][1..] == t[1..][..k - 1];
    }
    NetOfNone(t[..0]);
    if Closes(t, depth) {
      assert depth + Net(t[..0]) >= 0;
      forall k | 0 <= k <= |t| - 1
        ensures depth + Net([t[0]]) + Net(t[1..][..k]) >= 0
      {
        assert depth + Net(t[..k + 1]) >= 0;
      }
    }
    if depth >= 0 && Closes(t[1..], depth + Net([t[0]])) {
      forall k | 0 <= k <= |t|
        ensures depth + Net(t[..k]) >= 0
      {
        if k > 0 {
          assert depth + Net([t[0]]) + Net(t[1..][..k - 1]) >= 0;
        }
      }
    }
  }

  lemma NetOfNone(t: string)
    requires t == ""
    ensures Net(t) == 0
  {
  }

  /** The scan succeeds exactly on text whose parentheses close, none too early. */
  lemma {:induction false} SplitOkIff(s: string, i: nat, depth: nat, start: int)
    requires i <= |s| && (depth > 0 ==> 0 <= start < i)
    ensures SplitAt(s, i, depth, start).Ok? <==> Closes(s[i..], depth)
    decreases |s| - i
  {
    hide Net, Closes, SplitAt;
    SplitAtStep(s, i, depth, start);
    if i == |s| {
      ClosesAtEnd(s[i..], depth);
    } else {
      ClosesOn(s[i..], depth);
      NetOfOne(s[i]);
      assert s[i..][1..] == s[i + 1..] && s[i..][0] == s[i];
      if s[i] == '(' {
        SplitOkIff(s, i + 1, depth + 1, if depth == 0 then i else start);
      } else if s[i] != ')' {
        SplitOkIff(s, i + 1, depth, start);
      } else if depth > 0 {
        SplitOkIff(s, i + 1, depth - 1, start);
      } else {
        NeverBelow(s[i + 1..], -1);
      }
    }
  }

  lemma NeverBelow(t: string, depth: int)
    requires depth < 0
    ensures !Closes(t, depth)
  {
    NetOfNone(t[..0]);
  }

  lemma ClosesAtEnd(t: string, depth: int)
    requires t == ""
    ensures Closes(t, depth) <==> depth == 0
  {
  }

  lemma SplitAtStep(s: string, i: nat, depth: nat, start: int)
    requires i <= |s| && (depth > 0 ==> 0 <= start < i)
    ensures SplitAt(s, i, depth, start).Ok? <==>
      if i == |s| then depth == 0
      else if s[i] == '(' then SplitAt(s, i + 1, depth + 1, if depth == 0 then i else start).Ok?
      else if s[i] != ')' then SplitAt(s, i + 1, depth, start).Ok?
      else depth > 0 && SplitAt(s, i + 1, depth - 1, start).Ok?
  {
  }

  // ---------- The printed form ----------

  lemma {:induction false} PrintIsPart(t: Ast)
    requires Valid(t)
    ensures Balanced(Body(t)) && Part(Print(t))
    decreases t, 1
  {
    BodyBalanced(t);
    assert Print(t)[1..|Print(t)| - 1] == Body(t);
  }

  lemma {:induction false} BodyBalanced(t: Ast)
    requires Valid(t)
    ensures Balanced(Body(t))
    decreases t, 0
  {
    hide Balanced;
    match t
    case And(ps) =>
      AllBalanced(ps);
      PlainBalanced("&");
      BalancedConcat("&", PrintAll(ps));
    case Or(ps) =>
      AllBalanced(ps);
      PlainBalanced("|");
      BalancedConcat("|", PrintAll(ps));
    case Not(p) =>
      PrintIsPart(p);
      Parenthesised(Body(p));
      PlainBalanced("!");
      BalancedConcat("!", Print(p));
    case Equal(a, v) =>
      EscapeIsPlain(v);
      PlainBalanced(Body(t));
    case Present(a) =>
      PlainBalanced(Body(t));
    case Substring(a, ps) =>
      EscapeJoinPlain(ps);
      PlainBalanced(Body(t));
  }

  lemma {:induction false} EscapeJoinPlain(ps: seq<string>)
    ensures '(' !in EscapeJoin(ps) && ')' !in EscapeJoin(ps)
  {
    if ps != [] {
      EscapeIsPlain(ps[0]);
      EscapeJoinPlain(ps[1..]);
    }
  }

  lemma {:induction false} AllBalanced(ts: seq<Ast>)
    requires forall i :: 0 <= i < |ts| ==> Valid(ts[i])
    ensures Balanced(PrintAll(ts)) && forall p <- Printed(ts) :: Part(p)
    ensures PrintAll(ts) == Concat(Printed(ts))
    decreases ts, 0
  {
    hide Balanced, Part, Valid;
    if ts == [] {
      PlainBalanced([]);
    } else {
      PrintIsPart(ts[0]);
      Parenthesised(Body(ts[0]));
      AllBalanced(ts[1..]);
      BalancedConcat(Print(ts[0]), PrintAll(ts[1..]));
      assert Printed(ts)[1..] == Printed(ts[1..]);
      assert Printed(ts) == [Print(ts[0])] + Printed(ts[1..]);
    }
  }

  lemma {:induction false} UnescapesJoin(ps: seq<string>)
    requires ps != []
    ensures Unescape(EscapeJoin(ps)) == JoinStars(ps)
  {
    hide Unescape, Escape;
    if |ps| == 1 {
      UnescapeInverts(ps[0], []);
      EmptyUnescapes();
      assert Escape(ps[0]) + [] == Escape(ps[0]) && ps[0] + [] == ps[0];
    } else {
      UnescapesJoin(ps[1..]);
      UnescapeInverts(ps[0], "*" + EscapeJoin(ps[1..]));
      assert EscapeJoin(ps) == Escape(ps[0]) + ("*" + EscapeJoin(ps[1..]));
      StarUnescapes(EscapeJoin(ps[1..]));
      assert JoinStars(ps) == ps[0] + ("*" + JoinStars(ps[1..]));
    }
  }

  lemma EmptyUnescapes()
    ensures Unescape([]) == []
  {
  }

  lemma StarUnescapes(rest: string)
    ensures Unescape("*" + rest) == "*" + Unescape(rest)
  {
    assert ("*" + rest)[1..] == rest;
  }

  /** A lone star matches every value. */
  lemma {:induction false} LoneStar(v: string)
    ensures Glob("*", v)
    decreases |v|
  {
    if v != [] {
      LoneStar(v[1..]);
    }
  }

  lemma {:induction false} JoinHasStar(ps: seq<string>)
    requires |ps| >= 2
    ensures '*' in JoinStars(ps)
  {
  }

  /** An item `attr=text` is looked up under `attr` and compared with the unescaped text. */
  lemma ItemMeans(look: Lookup, a: string, text: string)
    requires ValidAttr(a)
    ensures MatchItem(look, a + "=" + text)
         == Ok(if Unescape(text) == "*" then look(a).Some? else look(a).Some? && Holds(look(a).value, Unescape(text)))
  {
    var item := a + "=" + text;
    assert item[|a|..|a| + 1] == "=";
    forall k | 0 <= k < |a| ensures !At(item, "=", k) {
      assert item[k..k + 1] == [a[k]];
    }
    FindIs(item, "=", 0, |a|);
    assert item[..|a|] == a && item[|a| + 1..] == text;
  }

  /** The printed form is taken apart again at its first character. */
  lemma Dispatch(look: Lookup, b: string)
    ensures var r := MatchFilter(look, "(" + b + ")");
            && (b != [] && (b[0] == '&' || b[0] == '|') ==>
                  r == match Split(b[1..])
                       case Err(e) => Err(e)
                       case Ok(parts) => MatchParts(look, b[0], parts, |b|))
            && (b != [] && b[0] == '!' ==>
                  r == match MatchFilter(look, b[1..])
                       case Err(e) => Err(e)
                       case Ok(m) => Ok(!m))
            && (b != [] && b[0] != '&' && b[0] != '|' && b[0] != '!' ==> r == MatchItem(look, b))
  {
    hide Split, MatchItem;
    var f := "(" + b + ")";
    assert TrimSpace(f) == f && f[1..|f| - 1] == b;
  }

  lemma SplitsPrinted(ps: seq<Ast>)
    requires ps != [] && forall i :: 0 <= i < |ps| ==> Valid(ps[i])
    ensures Split(PrintAll(ps)) == Ok(Printed(ps))
  {
    AllBalanced(ps);
    assert PrintAll(ps)[0..] == PrintAll(ps);
    SplitInverts(PrintAll(ps), 0, Printed(ps), -1);
  }

  /** Short-circuit evaluation of the parts gives the conjunction or disjunction. */
  lemma {:induction false} PartsMean(look: Lookup, op: char, ps: seq<Ast>, bound: nat)
    requires forall i :: 0 <= i < |ps| ==> Valid(ps[i])
    requires forall p <- Printed(ps) :: |p| < bound
    requires op == '&' || op == '|'
    ensures MatchParts(look, op, Printed(ps), bound)
         == Ok(if op == '&' then forall i :: 0 <= i < |ps| ==> Eval(look, ps[i])
               else exists i :: 0 <= i < |ps| && Eval(look, ps[i]))
    decreases ps
  {
    hide Valid, MatchFilter, Print, Eval;
    if ps != [] {
      FilterMeansAst(look, ps[0]);
      var rest := ps[1..];
      assert Printed(ps)[1..] == Printed(rest);
      PartsMean(look, op, rest, bound);
      assert forall i :: 0 <= i < |rest| ==> rest[i] == ps[i + 1];
      assert (forall i :: 0 <= i < |ps| ==> Eval(look, ps[i]))
          <==> Eval(look, ps[0]) && forall i :: 0 <= i < |rest| ==> Eval(look, rest[i]);
      assert (exists i :: 0 <= i < |ps| && Eval(look, ps[i]))
          <==> Eval(look, ps[0]) || exists i :: 0 <= i < |rest| && Eval(look, rest[i]);
    }
  }

  lemma FoldConcat(a: string, b: string)
    ensures Fold(a + b) == Fold(a) + Fold(b)
  {
  }

  predicate SpreadAt(ps: seq<string>, v: string, from: nat, k: int) {
    from <= k <= |v| && Spread(ps, v[k..])
  }

  lemma SpreadStep(ps: seq<string>, v: string)
    requires |ps| > 1
    ensures Spread(ps, v) <==> Fold(ps[0]) <= v && exists k :: SpreadAt(ps[1..], v, |ps[0]|, k)
  {
    hide Fold;
    if Spread(ps, v) {
      var k :| |ps[0]| <= k <= |v| && Spread(ps[1..], v[k..]);
      assert SpreadAt(ps[1..], v, |ps[0]|, k);
    }
  }

  /** Without stars in the pieces, spreading them over a text is matching the pattern that
      has a star between each two. */
  lemma {:induction false} SpreadIsGlob(ps: seq<string>, v: string)
    requires ps != [] && forall p <- ps :: '*' !in p
    ensures Spread(ps, v) <==> Glob(Fold(JoinStars(ps)), v)
    decreases |ps|
  {
    if |ps| == 1 {
      SpreadOne(ps[0], v);
      assert ps == [ps[0]];
    } else {
      hide Fold, Glob, Spread;
      forall w
        ensures Spread(ps[1..], w) <==> Glob(Fold(JoinStars(ps[1..])), w)
      {
        SpreadIsGlob(ps[1..], w);
      }
      FoldConcat(ps[0], "*" + JoinStars(ps[1..]));
      FoldConcat("*", JoinStars(ps[1..]));
      StarFolds();
      assert JoinStars(ps) == ps[0] + ("*" + JoinStars(ps[1..]));
      SpreadMore(ps, v, Fold(JoinStars(ps[1..])));
    }
  }

  lemma SpreadOne(p: string, v: string)
    requires '*' !in p
    ensures Spread([p], v) <==> Glob(Fold(p), v)
  {
    var lit := Fold(p);
    assert '*' !in lit;
    GlobLiteral(lit, "", v);
    assert lit + "" == lit;
    assert lit <= v && v[|lit|..] == "" <==> v == lit;
  }

  lemma FoldKeepsStarless(p: string)
    requires '*' !in p
    ensures '*' !in Fold(p) && |Fold(p)| == |p|
  {
  }

  lemma SpreadMore(ps: seq<string>, v: string, q: string)
    requires |ps| > 1 && '*' !in ps[0] && forall w :: Spread(ps[1..], w) <==> Glob(q, w)
    ensures Spread(ps, v) <==> Glob(Fold(ps[0]) + ("*" + q), v)
  {
    hide Fold, Glob, Spread;
    var lit := Fold(ps[0]);
    FoldKeepsStarless(ps[0]);
    GlobLiteral(lit, "*" + q, v);
    SpreadStep(ps, v);
    if lit <= v {
      GlobStar(q, v[|lit|..]);
      forall k
        ensures GlobAt(q, v[|lit|..], k) <==> SpreadAt(ps[1..], v, |lit|, |lit| + k)
      {
        if 0 <= k <= |v| - |lit| {
          assert v[|lit|..][k..] == v[|lit| + k..];
        }
      }
      if k :| SpreadAt(ps[1..], v, |lit|, k) {
        assert GlobAt(q, v[|lit|..], k - |lit|);
      }
    }
  }

  lemma StarFolds()
    ensures Fold("*") == "*"
  {
  }

  lemma ItemMeansAst(look: Lookup, t: Ast)
    requires Valid(t) && (t.Equal? || t.Present? || t.Substring?)
    ensures MatchItem(look, Body(t)) == Ok(Eval(look, t))
    ensures Body(t) != [] && Body(t)[0] != '&' && Body(t)[0] != '|' && Body(t)[0] != '!'
  {
    hide MatchItem, Unescape, Escape, Glob;
    match t
    case Equal(a, v) =>
      ItemMeans(look, a, Escape(v));
      UnescapeInverts(v, []);
      EmptyUnescapes();
      assert Escape(v) + [] == Escape(v) && v + [] == v;
    case Present(a) =>
      ItemMeans(look, a, "*");
      StarUnescapes([]);
      EmptyUnescapes();
      assert "*" + [] == "*";
    case Substring(a, ps) =>
      ItemMeans(look, a, EscapeJoin(ps));
      UnescapesJoin(ps);
      JoinHasStar(ps);
      if look(a).Some? {
        LoneStar(Fold(look(a).value));
        assert Fold("*") == "*";
        hide Spread, Fold;
        SpreadIsGlob(ps, Fold(look(a).value));
      }
  }

  /** Evaluating the text of a filter gives what the filter means. */
  lemma {:induction false} FilterMeansAst(look: Lookup, t: Ast)
    requires Valid(t)
    ensures MatchFilter(look, Print(t)) == Ok(Eval(look, t))
    decreases t, 0
  {
    hide MatchFilter, MatchParts, MatchItem, Split;
    Dispatch(look, Body(t));
    match t
    case And(ps) =>
      SplitsPrinted(ps);
      assert Body(t)[1..] == PrintAll(ps);
      PartsMean(look, '&', ps, |Body(t)|);
    case Or(ps) =>
      SplitsPrinted(ps);
      assert Body(t)[1..] == PrintAll(ps);
      PartsMean(look, '|', ps, |Body(t)|);
    case Not(p) =>
      FilterMeansAst(look, p);
      assert Body(t)[1..] == Print(p);
    case _ =>
      ItemMeansAst(look, t);
  }

  // ---------- A starred literal is the one thing escaping does not protect ----------

  lemma {:induction false} GlobSelf(v: string)
    ensures Glob(v, v)
  {
    if v != [] {
      GlobSelf(v[1..]);
    }
  }

  /** Leaving out a star leaves a text the pattern still matches. */
  lemma {:induction false} GlobDropStar(v: string, k: nat)
    requires k < |v| && v[k] == '*'
    ensures Glob(v, v[..k] + v[k + 1..])
  {
    var w := v[..k] + v[k + 1..];
    if k == 0 {
      assert w == v[1..];
      GlobSelf(w);
    } else {
      GlobDropStar(v[1..], k - 1);
      assert w[1..] == v[1..][..k - 1] + v[1..][k..];
    }
  }

  /** Equality with a literal means equality for every object exactly when the literal
      has no star: the code unescapes before it looks for wildcards. */
  lemma StarLiteralExact(a: string, v: string)
    requires ValidAttr(a)
    ensures (forall look: Lookup :: MatchFilter(look, Print(Equal(a, v))) == Ok(Eval(look, Equal(a, v))))
       <==> '*' !in v
  {
    if '*' !in v {
      forall look: Lookup ensures MatchFilter(look, Print(Equal(a, v))) == Ok(Eval(look, Equal(a, v))) {
        FilterMeansAst(look, Equal(a, v));
      }
    } else {
      var look := StarWitness(a, v);
    }
  }

  lemma StarWitness(a: string, v: string) returns (look: Lookup)
    requires ValidAttr(a) && '*' in v
    ensures MatchFilter(look, Print(Equal(a, v))) != Ok(Eval(look, Equal(a, v)))
  {
    hide MatchFilter, MatchItem, Unescape, Escape;
    var k :| 0 <= k < |v| && v[k] == '*';
    var w := v[..k] + v[k + 1..];
    look := _ => Some(w);
    var t := Equal(a, v);
    Dispatch(look, Body(t));
    ItemMeans(look, a, Escape(v));
    UnescapeInverts(v, []);
    EmptyUnescapes();
    assert Escape(v) + [] == Escape(v) && v + [] == v;
    assert Fold(v)[k] == '*' && Fold(v)[..k] + Fold(v)[k + 1..] == Fold(w);
    GlobDropStar(Fold(v), k);
  }

  /** The text without its stars. */
  function Unstar(s: string): (r: string)
    ensures |r| <= |s| && ('*' in s ==> |r| < |s|)
  {
    if s == [] then [] else (if s[0] == '*' then [] else [s[0]]) + Unstar(s[1..])
  }

  lemma {:induction false} UnstarConcat(a: string, b: string)
    ensures Unstar(a + b) == Unstar(a) + Unstar(b)
  {
    if a == [] {
      assert a + b == b;
    } else {
      hide Unstar;
      UnstarConcat(a[1..], b);
      assert (a + b)[1..] == a[1..] + b;
      UnstarStep(a);
      UnstarStep(a + b);
      ConcatAssociates(if a[0] == '*' then [] else [a[0]], Unstar(a[1..]), Unstar(b));
    }
  }

  lemma UnstarStep(s: string)
    requires s != []
    ensures Unstar(s) == (if s[0] == '*' then [] else [s[0]]) + Unstar(s[1..])
  {
  }

  lemma {:induction false} FoldUnstar(s: string)
    ensures Fold(Unstar(s)) == Unstar(Fold(s))
  {
    if s != [] {
      FoldUnstar(s[1..]);
      FoldConcat(if s[0] == '*' then [] else [s[0]], Unstar(s[1..]));
      assert Fold(s)[1..] == Fold(s[1..]);
      assert s[0] == '*' <==> Fold(s)[0] == '*';
      assert Fold([s[0]]) == [Fold(s)[0]];
    }
  }

  /** A pattern matches itself with every star left out. */
  lemma {:induction false} GlobUnstar(p: string)
    ensures Glob(p, Unstar(p))
  {
    if p != [] {
      GlobUnstar(p[1..]);
      if p[0] != '*' {
        assert Unstar(p)[1..] == Unstar(p[1..]);
      } else {
        assert Unstar(p) == Unstar(p[1..]);
      }
    }
  }

  function Total(ps: seq<string>): nat {
    if ps == [] then 0 else |ps[0]| + Total(ps[1..])
  }

  lemma {:induction false} SpreadLong(ps: seq<string>, v: string)
    requires Spread(ps, v)
    ensures |v| >= Total(ps)
    decreases |ps|
  {
    if |ps| > 1 {
      var k :| |ps[0]| <= k <= |v| && Spread(ps[1..], v[k..]);
      SpreadLong(ps[1..], v[k..]);
    }
  }

  lemma {:induction false} UnstarredShort(ps: seq<string>)
    requires ps != []
    ensures |Unstar(JoinStars(ps))| <= Total(ps)
    ensures (exists p :: p in ps && '*' in p) ==> |Unstar(JoinStars(ps))| < Total(ps)
    decreases |ps|
  {
    if |ps| == 1 {
      assert Total(ps) == |ps[0]| + Total([]);
    } else {
      UnstarredShort(ps[1..]);
      UnstarConcat(ps[0], "*" + JoinStars(ps[1..]));
      UnstarConcat("*", JoinStars(ps[1..]));
      assert Unstar("*") == Unstar("*"[1..]) == [];
      assert JoinStars(ps) == ps[0] + ("*" + JoinStars(ps[1..]));
    }
  }

  /** A substring filter means its pieces for every object exactly when no piece has a
      star: one that does is taken for a wildcard, escaped or not. */
  lemma StarPiecesExact(a: string, ps: seq<string>)
    requires ValidAttr(a) && |ps| >= 2
    ensures (forall look: Lookup ::
               MatchFilter(look, Print(Substring(a, ps))) == Ok(Eval(look, Substring(a, ps))))
       <==> forall p <- ps :: '*' !in p
  {
    hide MatchFilter, Eval, Print;
    if forall p <- ps :: '*' !in p {
      forall look: Lookup
        ensures MatchFilter(look, Print(Substring(a, ps))) == Ok(Eval(look, Substring(a, ps)))
      {
        FilterMeansAst(look, Substring(a, ps));
      }
    } else {
      var look := StarredPieces(a, ps);
    }
  }

  lemma StarredPieces(a: string, ps: seq<string>) returns (look: Lookup)
    requires ValidAttr(a) && |ps| >= 2 && exists p :: p in ps && '*' in p
    ensures MatchFilter(look, Print(Substring(a, ps))) != Ok(Eval(look, Substring(a, ps)))
  {
    hide MatchFilter, MatchItem, Unescape, Escape, EscapeJoin, Glob, Spread, Fold, Unstar;
    var pattern := JoinStars(ps);
    var w := Unstar(pattern);
    look := _ => Some(w);
    Dispatch(look, Body(Substring(a, ps)));
    ItemMeans(look, a, EscapeJoin(ps));
    UnescapesJoin(ps);
    JoinHasStar(ps);
    FoldUnstar(pattern);
    GlobUnstar(Fold(pattern));
    UnstarredShort(ps);
    if Spread(ps, Fold(w)) {
      SpreadLong(ps, Fold(w));
    }
  }
}
