/** matchWildcard (transport/fake/filter.go): the greedy left-to-right matcher
    agrees with the declarative meaning of a pattern. */
module Wildcard {
  import opened Search
  import opened Strings

  /** What a pattern means: `*` stands for any text, every other character for itself. */
  predicate Glob(p: string, v: string)
    decreases |p| + |v|
  {
    if p == [] then v == []
    else if p[0] == '*' then Glob(p[1..], v) || (v != [] && Glob(p, v[1..]))
    else v != [] && v[0] == p[0] && Glob(p[1..], v[1..])
  }

  /** strings.Split(p, "*"). */
  function SplitStars(p: string): (segs: seq<string>)
    ensures |segs| >= 1
    ensures |segs| > 1 <==> '*' in p
    ensures forall s <- segs :: '*' !in s
    ensures JoinStars(segs) == p
  {
    if p == [] then [""]
    else
      var rest := SplitStars(p[1..]);
      if p[0] == '*' then [""] + rest
      else [[p[0]] + rest[0]] + rest[1..]
  }

  function JoinStars(segs: seq<string>): string
    requires segs != []
  {
    if |segs| == 1 then segs[0] else segs[0] + "*" + JoinStars(segs[1..])
  }

  predicate HasSuffix(v: string, s: string) {
    |s| <= |v| && v[|v| - |s|..] == s
  }

  // ---------- The meaning, one segment at a time ----------

  lemma {:induction false} GlobLiteral(lit: string, q: string, v: string)
    requires '*' !in lit
    ensures Glob(lit + q, v) <==> lit <= v && Glob(q, v[|lit|..])
    decreases |lit|
  {
    if lit == [] {
      assert lit + q == q && v[0..] == v;
    } else {
      assert (lit + q)[1..] == lit[1..] + q;
      if v != [] && v[0] == lit[0] {
        GlobLiteral(lit[1..], q, v[1..]);
        assert |lit| <= |v| ==> v[1..][|lit| - 1..] == v[|lit|..];
        assert lit == [lit[0]] + lit[1..] && v == [v[0]] + v[1..];
      }
    }
  }

  predicate GlobAt(q: string, v: string, k: int) {
    0 <= k <= |v| && Glob(q, v[k..])
  }

  lemma {:induction false} GlobStar(q: string, v: string)
    ensures Glob("*" + q, v) <==> exists k :: GlobAt(q, v, k)
    decreases |v|
  {
    assert ("*" + q)[1..] == q && v[0..] == v;
    assert Glob(q, v) <==> GlobAt(q, v, 0);
    if v != [] {
      GlobStar(q, v[1..]);
      forall k ensures GlobAt(q, v[1..], k) <==> k != -1 && GlobAt(q, v, k + 1) {
        if 0 <= k < |v| {
          assert v[1..][k..] == v[k + 1..];
        }
      }
      if Glob("*" + q, v[1..]) {
        var k :| GlobAt(q, v[1..], k);
        assert GlobAt(q, v, k + 1);
      }
      if k :| GlobAt(q, v, k) && k != 0 {
        assert GlobAt(q, v[1..], k - 1);
      }
    }
  }

  /** A starred pattern that matches a suffix matches every longer one. */
  lemma StarExtends(q: string, v: string, i: nat, j: nat)
    requires i <= j <= |v| && Glob("*" + q, v[j..])
    ensures Glob("*" + q, v[i..])
  {
    GlobStar(q, v[j..]);
    GlobStar(q, v[i..]);
    var k :| GlobAt(q, v[j..], k);
    assert v[j..][k..] == v[i..][j - i + k..];
    assert GlobAt(q, v[i..], j - i + k);
  }

  /** The exchange argument: if any occurrence of a segment will do, the leftmost does. */
  lemma LeftmostSuffices(seg: string, q: string, w: string)
    requires '*' !in seg
    ensures Glob("*" + (seg + "*" + q), w)
       <==> var k := Find(w, seg, 0); k != -1 && Glob("*" + q, w[k + |seg|..])
  {
    hide Glob, Find, At, GlobAt;
    var p := "*" + q;
    assert seg + "*" + q == seg + p;
    var k := Find(w, seg, 0);
    FindFirst(w, seg, 0);
    GlobStar(seg + p, w);
    if j :| GlobAt(seg + p, w, j) {
      LiteralAt(seg, p, w, j);
      StarExtends(q, w, k + |seg|, j + |seg|);
    }
    if k != -1 {
      LiteralAt(seg, p, w, k);
    }
  }

  lemma LiteralAt(seg: string, p: string, w: string, j: int)
    requires '*' !in seg
    ensures GlobAt(seg + p, w, j) <==> At(w, seg, j) && GlobAt(p, w, j + |seg|)
    ensures At(w, seg, j) ==> 0 <= j <= |w| - |seg| && (GlobAt(p, w, j + |seg|) <==> Glob(p, w[j + |seg|..]))
  {
    hide Glob;
    if 0 <= j <= |w| {
      GlobLiteral(seg, p, w[j..]);
      if j + |seg| <= |w| {
        assert w[j..][..|seg|] == w[j..j + |seg|];
        assert w[j..][|seg|..] == w[j + |seg|..];
      }
    }
  }

  /** The last segment has to be a suffix; finding it anywhere is implied. */
  lemma LastIsSuffix(seg: string, w: string)
    requires '*' !in seg
    ensures Glob("*" + seg, w) <==> HasSuffix(w, seg)
    ensures HasSuffix(w, seg) ==> Find(w, seg, 0) != -1
  {
    GlobStar(seg, w);
    assert seg + [] == seg;
    forall j | 0 <= j <= |w| ensures GlobAt(seg, w, j) <==> w[j..] == seg {
      GlobLiteral(seg, [], w[j..]);
    }
    FindFirst(w, seg, 0);
    if HasSuffix(w, seg) {
      assert GlobAt(seg, w, |w| - |seg|);
      assert w[|w| - |seg|..|w|] == w[|w| - |seg|..];
      assert At(w, seg, |w| - |seg|);
    }
  }

  // ---------- The matcher ----------

  lemma FoldKeepsStars(p: string)
    ensures '*' in Fold(p) <==> '*' in p
  {
    forall k | 0 <= k < |p| ensures Fold(p)[k] == '*' <==> p[k] == '*' {}
    if '*' in p {
      var k :| 0 <= k < |p| && p[k] == '*';
      assert Fold(p)[k] == '*';
    }
  }

  lemma EmptyFound(v: string)
    ensures Find(v, "", 0) == 0
  {
  }

  /** The first segment is anchored at the start. */
  lemma FirstStep(v: string, segs: seq<string>)
    requires segs != [] && forall s <- segs :: '*' !in s
    ensures Find(v, segs[0], 0) == 0 <==> segs[0] <= v
    ensures |segs| > 1 ==> (Glob(JoinStars(segs), v)
                            <==> segs[0] <= v && Glob("*" + JoinStars(segs[1..]), v[|segs[0]|..]))
  {
    if segs[0] <= v {
      assert v[0..|segs[0]|] == segs[0];
    }
    if |segs| > 1 {
      GlobLiteral(segs[0], "*" + JoinStars(segs[1..]), v);
      assert JoinStars(segs) == segs[0] + ("*" + JoinStars(segs[1..]));
    }
  }

  /** A later segment may be taken at its leftmost occurrence. */
  lemma LaterStep(v: string, segs: seq<string>, i: nat, pos: nat)
    requires 0 < i < |segs| && pos <= |v| && forall s <- segs :: '*' !in s
    ensures var idx := Find(v[pos..], segs[i], 0);
            var goal := Glob("*" + JoinStars(segs[i..]), v[pos..]);
            && (idx == -1 ==> !goal)
            && (idx != -1 && i + 1 < |segs| ==>
                  (goal <==> Glob("*" + JoinStars(segs[i + 1..]), v[pos + idx + |segs[i]|..])))
            && (idx != -1 && i + 1 == |segs| ==> (goal <==> HasSuffix(v, segs[i])))
  {
    hide Glob, Find;
    var seg, w := segs[i], v[pos..];
    var idx := Find(w, seg, 0);
    if i + 1 < |segs| {
      assert segs[i..][1..] == segs[i + 1..];
      LeftmostSuffices(seg, JoinStars(segs[i + 1..]), w);
      assert JoinStars(segs[i..]) == seg + "*" + JoinStars(segs[i + 1..]);
      if idx != -1 {
        assert w[idx + |seg|..] == v[pos + idx + |seg|..];
      }
    } else {
      assert segs[i..] == [seg];
      LastIsSuffix(seg, w);
      if idx != -1 {
        assert w[|w| - |seg|..] == v[|v| - |seg|..];
      }
    }
  }

  method MatchWildcard(value: string, pattern: string) returns (r: bool)
    ensures '*' in pattern ==> (r <==> Glob(Fold(pattern), Fold(value)))
    ensures '*' !in pattern ==> (r <==> Fold(pattern) <= Fold(value) && HasSuffix(Fold(value), Fold(pattern)))
  {
    var v := Fold(value);
    var segs := SplitStars(Fold(pattern));
    ghost var goal := Glob(Fold(pattern), v);
    FoldKeepsStars(pattern);
    var pos := 0;
    hide Glob, Find, Fold, SplitStars;
    for i := 0 to |segs|
      invariant 0 <= pos <= |v|
      invariant i == 0 ==> pos == 0
      invariant 0 < i < |segs| ==> (goal <==> Glob("*" + JoinStars(segs[i..]), v[pos..]))
      invariant 1 < i == |segs| ==> (goal <==> HasSuffix(v, segs[i - 1]))
      invariant 1 == i == |segs| ==> segs[0] <= v
    {
      var seg := segs[i];
      if i == 0 {
        FirstStep(v, segs);
        assert v[0..] == v;
      } else {
        LaterStep(v, segs, i, pos);
      }
      EmptyFound(v[pos..]);
      if seg == "" {
        continue;
      }
      var idx := Find(v[pos..], seg, 0);
      if idx < 0 {
        return false;
      }
      if i == 0 && idx != 0 {
        return false;
      }
      pos := pos + (idx + |seg|);
    }
    var last := segs[|segs| - 1];
    if last != "" {
      return HasSuffix(v, last);
    }
    return true;
  }
}
