/** The attribute half of a Set-AD* call (internal/adscript/payload.go): four kinds
    of operation, the conflicts refused, and why what is accepted does not depend on
    the order in which it is carried out. */
module AttrOps {
  import opened Common
  import opened Strings

  type Value = string

  datatype Op = Add | Clear | Remove | Replace

  datatype ConflictError = ConflictError(attribute: string, ops: multiset<Op>)

  /** The keys of a cmdlet splat this package writes. */
  datatype SplatValue =
    | Table(values: map<string, seq<Value>>)
    | Single(value: map<string, Value>)
    | Names(names: seq<string>)
    | Other

  class Splat {
    var entries: map<string, SplatValue>
  }

  // ---------- Which operations name an attribute ----------

  function Spellings(keys: set<string>, k: string): set<string> {
    set n | n in keys && Fold(n) == k
  }

  function Occurrences(names: seq<string>, k: string): nat {
    if names == [] then 0
    else Occurrences(names[..|names| - 1], k) + if Fold(names[|names| - 1]) == k then 1 else 0
  }

  /** The operations whose names fold to `k`, one for every spelling. */
  function OpsOn(add: set<string>, remove: set<string>, replace: set<string>, clear: seq<string>, k: string)
    : multiset<Op>
  {
    Times(Add, |Spellings(add, k)|) + Times(Remove, |Spellings(remove, k)|)
    + Times(Replace, |Spellings(replace, k)|) + Times(Clear, Occurrences(clear, k))
  }

  function Times(op: Op, n: nat): multiset<Op> {
    multiset{}[op := n]
  }

  const SET_DIFF: multiset<Op> := multiset{Add, Remove}

  /** Two or more operations on one attribute, other than the Add/Remove pair. */
  predicate Conflicting(ops: multiset<Op>) {
    |ops| > 1 && ops != SET_DIFF
  }

  function At(seen: map<string, multiset<Op>>, k: string): multiset<Op> {
    if k in seen then seen[k] else multiset{}
  }

  lemma SpellingsGrow(keys: set<string>, n: string, k: string)
    requires n !in keys
    ensures |Spellings(keys + {n}, k)| == |Spellings(keys, k)| + if Fold(n) == k then 1 else 0
  {
    hide Fold;
    if Fold(n) == k {
      assert Spellings(keys + {n}, k) == Spellings(keys, k) + {n};
    } else {
      assert Spellings(keys + {n}, k) == Spellings(keys, k);
    }
  }

  /** A single operation is accepted, and so is one Add with one Remove; any other
      combination is a conflict. */
  lemma AcceptedAre(ops: multiset<Op>)
    ensures !Conflicting(ops)
       <==> ops == multiset{} || (exists op :: ops == multiset{op}) || ops == multiset{Add, Remove}
  {
    if |ops| == 1 {
      var op :| op in ops;
      assert ops == multiset{op} + (ops - multiset{op});
      assert |ops - multiset{op}| == 0;
    }
    if |ops| == 0 {
      assert ops == multiset{};
    }
  }

  /** What one more operation under `n` adds to those on the attribute `k`. */
  lemma OneMore(add: set<string>, remove: set<string>, replace: set<string>, clear: seq<string>, n: string, k: string)
    ensures OpsOn(add + {n}, remove, replace, clear, k)
         == OpsOn(add, remove, replace, clear, k) + Times(Add, if Fold(n) == k && n !in add then 1 else 0)
    ensures OpsOn(add, remove + {n}, replace, clear, k)
         == OpsOn(add, remove, replace, clear, k) + Times(Remove, if Fold(n) == k && n !in remove then 1 else 0)
    ensures OpsOn(add, remove, replace + {n}, clear, k)
         == OpsOn(add, remove, replace, clear, k) + Times(Replace, if Fold(n) == k && n !in replace then 1 else 0)
    ensures OpsOn(add, remove, replace, clear + [n], k)
         == OpsOn(add, remove, replace, clear, k) + Times(Clear, if Fold(n) == k then 1 else 0)
  {
    hide Fold, Times, Spellings;
    MoreSpellings(Add, add, n, k);
    MoreSpellings(Remove, remove, n, k);
    MoreSpellings(Replace, replace, n, k);
    assert (clear + [n])[..|clear|] == clear;
    TimesAdd(Clear, Occurrences(clear, k), if Fold(n) == k then 1 else 0);
    var a, r, p, c := Times(Add, |Spellings(add, k)|), Times(Remove, |Spellings(remove, k)|),
                      Times(Replace, |Spellings(replace, k)|), Times(Clear, Occurrences(clear, k));
    SumGrows(a, r, p, c, Times(Add, if Fold(n) == k && n !in add then 1 else 0));
    SumGrows(r, a, p, c, Times(Remove, if Fold(n) == k && n !in remove then 1 else 0));
    SumGrows(p, a, r, c, Times(Replace, if Fold(n) == k && n !in replace then 1 else 0));
    SumGrows(c, a, r, p, Times(Clear, if Fold(n) == k then 1 else 0));
  }

  lemma SumGrows<T>(x: multiset<T>, a: multiset<T>, b: multiset<T>, c: multiset<T>, more: multiset<T>)
    ensures (x + more) + a + b + c == (x + a + b + c) + more
    ensures a + (x + more) + b + c == (a + x + b + c) + more
    ensures a + b + (x + more) + c == (a + b + x + c) + more
    ensures a + b + c + (x + more) == (a + b + c + x) + more
  {
  }

  lemma TimesAdd(op: Op, m: nat, n: nat)
    ensures Times(op, m + n) == Times(op, m) + Times(op, n)
  {
  }

  lemma MoreSpellings(op: Op, keys: set<string>, n: string, k: string)
    ensures Times(op, |Spellings(keys + {n}, k)|)
         == Times(op, |Spellings(keys, k)|) + Times(op, if Fold(n) == k && n !in keys then 1 else 0)
  {
    hide Fold, Times, Spellings;
    if n in keys {
      assert keys + {n} == keys;
    } else {
      SpellingsGrow(keys, n, k);
    }
    TimesAdd(op, |Spellings(keys, k)|, if Fold(n) == k && n !in keys then 1 else 0);
  }

  predicate SortedCopy(t: seq<string>, s: seq<string>) {
    StrictlySorted(t) && multiset(t) == multiset(s)
  }

  class AttrOps {
    var add: map<string, seq<Value>>
    var remove: map<string, seq<Value>>
    var replace: map<string, Value>
    var clear: seq<string>

    constructor ()
      ensures add == map[] && remove == map[] && replace == map[] && clear == []
    {
      add, remove, replace, clear := map[], map[], map[], [];
    }

    /** Later values follow earlier ones; the attribute counts as added to once for each of its
        spellings, however many values it gets. */
    method AddValues(name: string, values: seq<Value>)
      modifies this`add
      ensures add == old(add)[name := (if name in old(add) then old(add)[name] else []) + values]
      ensures forall k :: Ops(k) == old(Ops(k)) + Times(Add, if Fold(name) == k && name !in old(add) then 1 else 0)
    {
      hide OpsOn, Times, Fold;
      forall k {
        OneMore(add.Keys, remove.Keys, replace.Keys, clear, name, k);
      }
      ghost var was := add.Keys;
      add := add[name := (if name in add then add[name] else []) + values];
      assert add.Keys == was + {name};
    }

    /** Likewise for values removed. */
    method RemoveValues(name: string, values: seq<Value>)
      modifies this`remove
      ensures remove == old(remove)[name := (if name in old(remove) then old(remove)[name] else []) + values]
      ensures forall k :: 
        Ops(k) == old(Ops(k)) + Times(Remove, if Fold(name) == k && name !in old(remove) then 1 else 0)
    {
      hide OpsOn, Times, Fold;
      forall k {
        OneMore(add.Keys, remove.Keys, replace.Keys, clear, name, k);
      }
      ghost var was := remove.Keys;
      remove := remove[name := (if name in remove then remove[name] else []) + values];
      assert remove.Keys == was + {name};
    }

    /** The last value under a spelling stands; the attribute counts as replaced once for each. */
    method ReplaceValue(name: string, value: Value)
      modifies this`replace
      ensures replace == old(replace)[name := value]
      ensures forall k :: 
        Ops(k) == old(Ops(k)) + Times(Replace, if Fold(name) == k && name !in old(replace) then 1 else 0)
    {
      hide OpsOn, Times, Fold;
      forall k {
        OneMore(add.Keys, remove.Keys, replace.Keys, clear, name, k);
      }
      ghost var was := replace.Keys;
      replace := replace[name := value];
      assert replace.Keys == was + {name};
    }

    /** Every call counts: clearing one attribute twice is already a conflict. */
    method ClearName(name: string)
      modifies this`clear
      ensures clear == old(clear) + [name]
      ensures forall k :: Ops(k) == old(Ops(k)) + Times(Clear, if Fold(name) == k then 1 else 0)
    {
      hide OpsOn, Times, Fold;
      forall k {
        OneMore(add.Keys, remove.Keys, replace.Keys, clear, name, k);
      }
      clear := clear + [name];
    }

    ghost function Ops(k: string): multiset<Op>
      reads this
    {
      OpsOn(add.Keys, remove.Keys, replace.Keys, clear, k)
    }

    /** The order in which a map gives up its keys is arbitrary. */
    static method NoteAll(seen: map<string, multiset<Op>>, keys: set<string>, op: Op)
      returns (seen': map<string, multiset<Op>>)
      ensures Noted(seen, seen', keys, op)
    {
      seen' := seen;
      var todo := keys;
      NotedNone(seen, op);
      assert keys - todo == {};
      hide Noted, Fold;
      while todo != {}
        invariant todo <= keys && Noted(seen, seen', keys - todo, op)
        decreases todo
      {
        var n :| n in todo;
        NotedMore(seen, seen', keys - todo, op, n);
        seen' := Note(seen', n, op);
        assert keys - (todo - {n}) == (keys - todo) + {n};
        todo := todo - {n};
      }
      assert keys - todo == keys;
    }

    method Seen() returns (seen: map<string, multiset<Op>>)
      ensures forall k :: At(seen, k) == Ops(k)
    {
      seen := map[];
      var s1 := NoteAll(seen, add.Keys, Add);
      var s2 := NoteAll(s1, remove.Keys, Remove);
      var s3 := NoteAll(s2, replace.Keys, Replace);
      seen := s3;
      CountedNone(s3, clear);
      hide Fold, Counted, Noted, Times;
      for i := 0 to |clear|
        invariant Counted(s3, seen, clear[..i])
      {
        CountedMore(s3, seen, clear, i);
        seen := Note(seen, clear[i], Clear);
      }
      assert clear[..|clear|] == clear;
      SeenAll(map[], s1, s2, s3, seen, add.Keys, remove.Keys, replace.Keys, clear);
    }

    method Apply(splat: Splat) returns (r: Result<(), ConflictError>)
      modifies splat
      ensures r.Err? <==> exists k :: Conflicting(Ops(k))
      ensures r.Err? ==> && splat.entries == old(splat.entries)
                         && Conflicting(Ops(r.error.attribute)) && r.error.ops == Ops(r.error.attribute)
                         && forall k :: Conflicting(Ops(k)) ==> k == r.error.attribute || Less(r.error.attribute, k)
      ensures r.Ok? ==> exists cleared ::
        SortedCopy(cleared, clear) && splat.entries == WithTables(old(splat.entries), cleared)
    {
      hide Ops, SortedCopy, Conflicting, Less, WithTables;
      var conflict := FirstConflict();
      if conflict.Some? {
        return Err(conflict.value);
      }
      var cleared := SortedClear();
      WriteTables(splat, cleared);
      return Ok(());
    }

    method WriteTables(splat: Splat, cleared: seq<string>)
      modifies splat
      ensures splat.entries == WithTables(old(splat.entries), cleared)
      ensures Tabled(old(splat.entries), cleared, splat.entries)
    {
      hide Tabled;
      TablesAre(splat.entries, cleared);
      if |add| > 0 {
        splat.entries := splat.entries["Add" := Table(add)];
      }
      if |remove| > 0 {
        splat.entries := splat.entries["Remove" := Table(remove)];
      }
      if |replace| > 0 {
        splat.entries := splat.entries["Replace" := Single(replace)];
      }
      if |clear| > 0 {
        splat.entries := splat.entries["Clear" := Names(cleared)];
      }
    }

    /** Each kind of operation present has its table in w, under its own key, and the
        other entries are those of e. */
    ghost predicate Tabled(e: map<string, SplatValue>, cleared: seq<string>, w: map<string, SplatValue>)
      reads this
    {
      && (|add| > 0 ==> "Add" in w && w["Add"] == Table(add))
      && (|remove| > 0 ==> "Remove" in w && w["Remove"] == Table(remove))
      && (|replace| > 0 ==> "Replace" in w && w["Replace"] == Single(replace))
      && (|clear| > 0 ==> "Clear" in w && w["Clear"] == Names(cleared))
      && forall k | !(k == "Add" && |add| > 0) && !(k == "Remove" && |remove| > 0)
                    && !(k == "Replace" && |replace| > 0) && !(k == "Clear" && |clear| > 0) ::
        (k in w <==> k in e) && (k in w ==> w[k] == e[k])
    }

    lemma TablesAre(e: map<string, SplatValue>, cleared: seq<string>)
      ensures Tabled(e, cleared, WithTables(e, cleared))
    {
      FourKeys();
    }

    static lemma FourKeys()
      ensures "Add" != "Remove" && "Add" != "Replace" && "Add" != "Clear"
      ensures "Remove" != "Replace" && "Remove" != "Clear" && "Replace" != "Clear"
    {
      assert "Add"[0] == 'A' && "Remove"[0] == 'R' && "Replace"[0] == 'R' && "Clear"[0] == 'C';
      assert "Remove"[2] == 'm' && "Replace"[2] == 'p';
    }

    method SortedClear() returns (cleared: seq<string>)
      requires forall k :: !Conflicting(Ops(k))
      ensures SortedCopy(cleared, clear)
    {
      ClearedOnce();
      cleared := SortedKeys(Elements(clear));
      SameNames(cleared, clear);
    }

    /** The least attribute in conflict, if there is one. */
    method FirstConflict() returns (r: Option<ConflictError>)
      ensures r.None? ==> forall k :: !Conflicting(Ops(k))
      ensures r.Some? ==> && Conflicting(Ops(r.value.attribute)) && r.value.ops == Ops(r.value.attribute)
                          && forall k :: Conflicting(Ops(k)) ==> k == r.value.attribute || Less(r.value.attribute, k)
    {
      var seen := Seen();
      hide Ops, Less;
      var names := SortedKeys(seen.Keys);
      for i := 0 to |names|
        invariant forall j :: 0 <= j < i ==> !Conflicting(Ops(names[j]))
      {
        var n := names[i];
        assert n in Elements(names) && At(seen, n) == Ops(n);
        if |seen[n]| > 1 {
          if seen[n] == SET_DIFF {
            continue;
          }
          forall k | Conflicting(Ops(k)) ensures k == n || Less(n, k) {
            assert At(seen, k) == Ops(k) && k in Elements(names);
          }
          return Some(ConflictError(n, seen[n]));
        }
      }
      forall k ensures !Conflicting(Ops(k)) {
        assert At(seen, k) == Ops(k) && (k in seen ==> k in Elements(names));
      }
      return None;
    }

    /** What a successful Apply writes: a table for each kind of operation there is. */
    ghost function WithTables(e: map<string, SplatValue>, cleared: seq<string>): map<string, SplatValue>
      reads this
    {
      var e1 := if |add| > 0 then e["Add" := Table(add)] else e;
      var e2 := if |remove| > 0 then e1["Remove" := Table(remove)] else e1;
      var e3 := if |replace| > 0 then e2["Replace" := Single(replace)] else e2;
      if |clear| > 0 then e3["Clear" := Names(cleared)] else e3
    }

    /** Without a conflict no name is cleared twice. */
    lemma ClearedOnce()
      requires forall k :: !Conflicting(Ops(k))
      ensures forall i, j :: 0 <= i < j < |clear| ==> clear[i] != clear[j]
    {
      forall i, j | 0 <= i < j < |clear| && clear[i] == clear[j] ensures false {
        var k := Fold(clear[i]);
        Twice(clear, i, j);
        TwiceConflicts(Ops(k));
      }
    }
  }

  lemma TwiceConflicts(ops: multiset<Op>)
    requires ops[Clear] >= 2
    ensures Conflicting(ops)
  {
    assert SET_DIFF[Clear] == 0;
    assert multiset{Clear, Clear} <= ops;
  }

  // ---------- Tallying ----------

  function Note(seen: map<string, multiset<Op>>, name: string, op: Op): map<string, multiset<Op>> {
    seen[Fold(name) := At(seen, Fold(name)) + multiset{op}]
  }

  ghost predicate Noted(seen: map<string, multiset<Op>>, seen': map<string, multiset<Op>>, keys: set<string>, op: Op) {
    forall k :: At(seen', k) == At(seen, k) + Times(op, |Spellings(keys, k)|)
  }

  ghost predicate Counted(seen: map<string, multiset<Op>>, seen': map<string, multiset<Op>>, clear: seq<string>) {
    forall k :: At(seen', k) == At(seen, k) + Times(Clear, Occurrences(clear, k))
  }

  lemma NotedNone(seen: map<string, multiset<Op>>, op: Op)
    ensures Noted(seen, seen, {}, op)
  {
    forall k ensures At(seen, k) == At(seen, k) + Times(op, |Spellings({}, k)|) {
      assert Spellings({}, k) == {} && Times(op, 0) == multiset{};
    }
  }

  lemma CountedNone(seen: map<string, multiset<Op>>, clear: seq<string>)
    ensures Counted(seen, seen, clear[..0])
  {
    assert Times(Clear, 0) == multiset{};
  }

  lemma TimesMore(op: Op, n: nat)
    ensures Times(op, n + 1) == Times(op, n) + multiset{op}
  {
  }

  lemma NotedMore(seen: map<string, multiset<Op>>, seen': map<string, multiset<Op>>, keys: set<string>, op: Op,
                  n: string)
    requires Noted(seen, seen', keys, op) && n !in keys
    ensures Noted(seen, Note(seen', n, op), keys + {n}, op)
  {
    hide Times, Spellings;
    forall k ensures At(Note(seen', n, op), k) == At(seen, k) + Times(op, |Spellings(keys + {n}, k)|) {
      NotedMoreAt(seen, seen', keys, op, n, k);
    }
  }

  lemma NotedMoreAt(seen: map<string, multiset<Op>>, seen': map<string, multiset<Op>>, keys: set<string>, op: Op,
                    n: string, k: string)
    requires At(seen', k) == At(seen, k) + Times(op, |Spellings(keys, k)|) && n !in keys
    ensures At(Note(seen', n, op), k) == At(seen, k) + Times(op, |Spellings(keys + {n}, k)|)
  {
    hide Fold, Times, Spellings;
    SpellingsGrow(keys, n, k);
    TimesMore(op, |Spellings(keys, k)|);
  }

  lemma CountedMore(seen: map<string, multiset<Op>>, seen': map<string, multiset<Op>>, clear: seq<string>, i: nat)
    requires i < |clear| && Counted(seen, seen', clear[..i])
    ensures Counted(seen, Note(seen', clear[i], Clear), clear[..i + 1])
  {
    hide Fold, Times, Occurrences;
    forall k ensures At(Note(seen', clear[i], Clear), k) == At(seen, k) + Times(Clear, Occurrences(clear[..i + 1], k)) {
      CountedMoreAt(seen, seen', clear, i, k);
    }
  }

  lemma OccurrencesGrow(clear: seq<string>, i: nat, k: string)
    requires i < |clear|
    ensures Occurrences(clear[..i + 1], k) == Occurrences(clear[..i], k) + if Fold(clear[i]) == k then 1 else 0
  {
    hide Fold;
    assert clear[..i + 1][..i] == clear[..i];
  }

  lemma CountedMoreAt(seen: map<string, multiset<Op>>, seen': map<string, multiset<Op>>, clear: seq<string>,
                      i: nat, k: string)
    requires i < |clear| && At(seen', k) == At(seen, k) + Times(Clear, Occurrences(clear[..i], k))
    ensures At(Note(seen', clear[i], Clear), k) == At(seen, k) + Times(Clear, Occurrences(clear[..i + 1], k))
  {
    hide Fold, Times, Occurrences;
    OccurrencesGrow(clear, i, k);
    TimesMore(Clear, Occurrences(clear[..i], k));
  }

  lemma SeenAll(s0: map<string, multiset<Op>>, s1: map<string, multiset<Op>>, s2: map<string, multiset<Op>>,
                s3: map<string, multiset<Op>>, s4: map<string, multiset<Op>>,
                add: set<string>, remove: set<string>, replace: set<string>, clear: seq<string>)
    requires s0 == map[] && Noted(s0, s1, add, Add) && Noted(s1, s2, remove, Remove) && Noted(s2, s3, replace, Replace)
    requires Counted(s3, s4, clear)
    ensures forall k :: At(s4, k) == OpsOn(add, remove, replace, clear, k)
  {
    hide Times, Spellings, Fold, Occurrences;
    forall k ensures At(s4, k) == OpsOn(add, remove, replace, clear, k) {
      assert At(s0, k) == multiset{};
      hide At, OpsOn;
      Chain(At(s0, k), At(s1, k), At(s2, k), At(s3, k), At(s4, k),
            Times(Add, |Spellings(add, k)|), Times(Remove, |Spellings(remove, k)|),
            Times(Replace, |Spellings(replace, k)|), Times(Clear, Occurrences(clear, k)));
      Unfolded(add, remove, replace, clear, k);
    }
  }

  lemma Unfolded(add: set<string>, remove: set<string>, replace: set<string>, clear: seq<string>, k: string)
    ensures OpsOn(add, remove, replace, clear, k)
         == Times(Add, |Spellings(add, k)|) + Times(Remove, |Spellings(remove, k)|)
            + Times(Replace, |Spellings(replace, k)|) + Times(Clear, Occurrences(clear, k))
  {
    hide Times, Spellings, Occurrences;
  }

  lemma Chain<T>(s0: multiset<T>, s1: multiset<T>, s2: multiset<T>, s3: multiset<T>, s4: multiset<T>,
                 a: multiset<T>, b: multiset<T>, c: multiset<T>, d: multiset<T>)
    requires s0 == multiset{} && s1 == s0 + a && s2 == s1 + b && s3 == s2 + c && s4 == s3 + d
    ensures s4 == a + b + c + d
  {
    assert s1 == a;
  }

  lemma {:induction false} Twice(names: seq<string>, i: nat, j: nat)
    requires i < j < |names| && names[i] == names[j]
    ensures Occurrences(names, Fold(names[i])) >= 2
  {
    hide Fold;
    var init := names[..|names| - 1];
    if j == |names| - 1 {
      Once(init, i);
    } else {
      Twice(init, i, j);
    }
  }

  lemma {:induction false} Once(names: seq<string>, i: nat)
    requires i < |names|
    ensures Occurrences(names, Fold(names[i])) >= 1
  {
    hide Fold;
    if i < |names| - 1 {
      Once(names[..|names| - 1], i);
    }
  }

  lemma {:induction false} SameNames(a: seq<string>, b: seq<string>)
    requires Lists(a, Elements(b)) && forall i, j :: 0 <= i < j < |b| ==> b[i] != b[j]
    ensures multiset(a) == multiset(b)
  {
    forall i, j | 0 <= i < j < |a| ensures a[i] != a[j] {
      Trichotomy(a[i], a[j]);
    }
    OnceEach(a);
    OnceEach(b);
    forall x ensures multiset(a)[x] == multiset(b)[x] {
      assert x in Elements(a) <==> x in Elements(b);
    }
  }

  lemma {:induction false} OnceEach(s: seq<string>)
    requires forall i, j :: 0 <= i < j < |s| ==> s[i] != s[j]
    ensures forall x :: multiset(s)[x] == if x in s then 1 else 0
  {
    if s != [] {
      OnceEach(s[1..]);
      assert s == [s[0]] + s[1..];
    }
  }
}
