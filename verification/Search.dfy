/** bytes.Index and strings.Index. */
module Search {

  predicate At(s: string, pat: string, k: int) {
    0 <= k <= |s| - |pat| && s[k..k + |pat|] == pat
  }

  /** The least index `k >= from` at which `pat` occurs in `s`, or -1. */
  function Find(s: string, pat: string, from: nat): (r: int)
    requires from <= |s|
    ensures r == -1 || from <= r <= |s| - |pat|
    decreases |s| - from
  {
    if At(s, pat, from) then from
    else if from == |s| then -1
    else Find(s, pat, from + 1)
  }

  lemma {:induction false} FindFirst(s: string, pat: string, from: nat)
    requires from <= |s|
    ensures var r := Find(s, pat, from);
            && (r != -1 ==> At(s, pat, r))
            && forall k :: from <= k < (if r == -1 then |s| + 1 else r) ==> !At(s, pat, k)
    decreases |s| - from
  {
    if !At(s, pat, from) && from != |s| {
      FindFirst(s, pat, from + 1);
    }
  }

  /** A `Find` answer is determined by where the pattern occurs. */
  lemma FindIs(s: string, pat: string, from: nat, r: nat)
    requires from <= r && from <= |s| && At(s, pat, r)
    requires forall k :: from <= k < r ==> !At(s, pat, k)
    ensures Find(s, pat, from) == r
  {
    FindFirst(s, pat, from);
    assert At(s, pat, r) && r <= |s|;
  }

  /** Text appended to `a` does not disturb what already occurs in it. */
  lemma FindExtends(a: string, b: string, pat: string)
    ensures Find(a, pat, 0) != -1 ==> Find(a + b, pat, 0) == Find(a, pat, 0)
    ensures Find(a, pat, 0) == -1 ==> Find(a + b, pat, 0) == -1 || Find(a + b, pat, 0) > |a| - |pat|
  {
    FindFirst(a, pat, 0);
    FindFirst(a + b, pat, 0);
    forall k | 0 <= k <= |a| - |pat|
      ensures At(a + b, pat, k) == At(a, pat, k)
    {
      assert (a + b)[k..k + |pat|] == a[k..k + |pat|];
    }
    if Find(a, pat, 0) != -1 {
      FindIs(a + b, pat, 0, Find(a, pat, 0));
    }
  }
}
