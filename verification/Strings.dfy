/** Byte-wise string order, sorted listings of a set, and ASCII case folding. */
module Strings {

  /** Go's `<` on strings. */
  predicate Less(a: string, b: string) {
    b != [] && (a == [] || a[0] < b[0] || (a[0] == b[0] && Less(a[1..], b[1..])))
  }

  lemma {:induction false} Irreflexive(a: string)
    ensures !Less(a, a)
  {
    if a != [] {
      Irreflexive(a[1..]);
    }
  }

  lemma {:induction false} Trichotomy(a: string, b: string)
    ensures Less(a, b) || a == b || Less(b, a)
    ensures !(Less(a, b) && Less(b, a)) && !Less(a, a) && !Less(b, b)
    decreases |a| + |b|
  {
    Irreflexive(a);
    Irreflexive(b);
    if a != [] && b != [] && a[0] == b[0] {
      Trichotomy(a[1..], b[1..]);
      assert a == [a[0]] + a[1..] && b == [b[0]] + b[1..];
    }
  }

  lemma {:induction false} LessTransitive(a: string, b: string, c: string)
    requires Less(a, b) && Less(b, c)
    ensures Less(a, c)
  {
    if a != [] && a[0] == b[0] == c[0] {
      LessTransitive(a[1..], b[1..], c[1..]);
    }
  }

  /** The strings differ at `k` first, or the first ends there. */
  predicate LessFrom(a: string, b: string, k: int) {
    && 0 <= k <= |a| && k < |b| && a[..k] == b[..k]
    && (k == |a| || a[k] < b[k])
  }

  lemma SharesHead(a: string, b: string, k: int)
    requires LessFrom(a, b, k) && k > 0
    ensures a[0] == b[0]
  {
    assert a[..k][0] == a[0] && b[..k][0] == b[0];
  }

  /** The order is lexicographic, by character: a proper prefix comes first. */
  lemma {:induction false} LessMeans(a: string, b: string)
    ensures Less(a, b) <==> exists k :: LessFrom(a, b, k)
    decreases |a|
  {
    if a == [] || b == [] || a[0] != b[0] {
      assert Less(a, b) ==> LessFrom(a, b, 0);
      forall k | LessFrom(a, b, k)
        ensures Less(a, b)
      {
        if k > 0 {
          SharesHead(a, b, k);
        }
      }
    } else {
      LessMeans(a[1..], b[1..]);
      if Less(a, b) {
        var k :| LessFrom(a[1..], b[1..], k);
        assert a[..k + 1] == [a[0]] + a[1..][..k] && b[..k + 1] == [b[0]] + b[1..][..k];
        assert LessFrom(a, b, k + 1);
      }
      if k :| LessFrom(a, b, k) {
        assert k > 0;
        assert a[1..][..k - 1] == a[..k][1..] && b[1..][..k - 1] == b[..k][1..];
        assert LessFrom(a[1..], b[1..], k - 1);
      }
    }
  }

  // ---------- Sorted listings ----------

  predicate StrictlySorted(s: seq<string>) {
    forall i, j :: 0 <= i < j < |s| ==> Less(s[i], s[j])
  }

  function Elements<T>(s: seq<T>): set<T> {
    set x | x in s
  }

  /** `s` lists the set `xs`, each element once, in increasing order. */
  predicate Lists(s: seq<string>, xs: set<string>) {
    StrictlySorted(s) && Elements(s) == xs
  }

  lemma {:induction false} ListingUnique(s: seq<string>, t: seq<string>, xs: set<string>)
    requires Lists(s, xs) && Lists(t, xs)
    ensures s == t
    decreases |s|
  {
    NonEmpty(s, xs);
    NonEmpty(t, xs);
    if s != [] {
      assert s[0] in Elements(t);
      HeadLeast(s);
      HeadLeast(t);
      assert t[0] in Elements(s);
      Trichotomy(s[0], t[0]);
      TailLists(s, xs);
      TailLists(t, xs);
      ListingUnique(s[1..], t[1..], xs - {s[0]});
    }
  }

  lemma NonEmpty(s: seq<string>, xs: set<string>)
    requires Lists(s, xs)
    ensures s == [] <==> xs == {}
  {
    if s != [] {
      assert s[0] in Elements(s);
    }
  }

  lemma HeadLeast(s: seq<string>)
    requires StrictlySorted(s) && s != []
    ensures forall x <- s :: x == s[0] || Less(s[0], x)
  {
  }

  lemma TailLists(s: seq<string>, xs: set<string>)
    requires Lists(s, xs) && s != []
    ensures Lists(s[1..], xs - {s[0]})
  {
    forall k | 1 <= k < |s| ensures s[k] != s[0] {
      Trichotomy(s[0], s[k]);
    }
    forall x ensures x in Elements(s[1..]) <==> x in xs - {s[0]} {
      assert x in s <==> x == s[0] || x in s[1..];
    }
  }

  /** sort.Strings over the keys of a map: keys arrive in any order. */
  method SortedKeys(xs: set<string>) returns (s: seq<string>)
    ensures Lists(s, xs)
  {
    s := [];
    var todo := xs;
    while todo != {}
      invariant todo <= xs && Lists(s, xs - todo)
      decreases todo
    {
      var x :| x in todo;
      s := InsertSorted(s, x, xs - todo);
      todo := todo - {x};
      assert xs - todo == xs - (todo + {x}) + {x};
    }
  }

  method InsertSorted(s: seq<string>, x: string, ghost xs: set<string>) returns (t: seq<string>)
    requires Lists(s, xs) && x !in xs
    ensures Lists(t, xs + {x})
  {
    var k := 0;
    while k < |s| && Less(s[k], x)
      invariant 0 <= k <= |s| && forall i :: 0 <= i < k ==> Less(s[i], x)
    {
      k := k + 1;
    }
    t := s[..k] + [x] + s[k..];
    if k < |s| {
      assert s[k] in Elements(s);
      Trichotomy(s[k], x);
      forall i | k < i < |s| ensures Less(x, s[i]) {
        LessTransitive(x, s[k], s[i]);
      }
    }
    forall y ensures y in Elements(t) <==> y in xs + {x} {
      assert s == s[..k] + s[k..];
      assert y in s <==> y in s[..k] || y in s[k..];
    }
  }

  // ---------- Case folding ----------

  function FoldChar(c: char): char {
    if 'A' <= c <= 'Z' then c + 32 as char else c
  }

  /** strings.ToLower on ASCII names. */
  function Fold(s: string): (r: string)
    ensures |r| == |s|
    ensures forall k :: 0 <= k < |s| ==> r[k] == FoldChar(s[k])
  {
    seq(|s|, k requires 0 <= k < |s| => FoldChar(s[k]))
  }

  /** It lowers the letters A to Z, code points 65 to 90, and leaves all else alone. */
  lemma FoldMeans(s: string, k: nat)
    requires k < |s|
    ensures Fold(s)[k] as int == s[k] as int + if 65 <= s[k] as int <= 90 then 32 else 0
    ensures Fold("AZaz@[") == "azaz@["
  {
    assert 'A' as int == 65 && 'Z' as int == 90;
  }
}
