/** Why accepted attribute operations have one outcome (internal/adscript/payload.go):
    carried out one at a time in any order that removes before it adds, they leave
    the object in the same state. */
module AttrOrder {
  import opened Strings
  import opened AttrOps

  /** One operation on one attribute, named by its folded name. */
  datatype Entry = Entry(op: Op, key: string, values: set<Value>)

  type Object = map<string, set<Value>>

  function ValuesAt(st: Object, k: string): set<Value> {
    if k in st then st[k] else {}
  }

  function Do(e: Entry, st: Object): Object {
    st[e.key := match e.op
                case Add => ValuesAt(st, e.key) + e.values
                case Remove => ValuesAt(st, e.key) - e.values
                case Replace => e.values
                case Clear => {}]
  }

  function Exec(es: seq<Entry>, st: Object): Object {
    if es == [] then st else Exec(es[1..], Do(es[0], st))
  }

  /** The operations in `es` on attribute `k`. */
  function OpsIn(es: seq<Entry>, k: string): multiset<Op> {
    if es == [] then multiset{}
    else OpsIn(es[1..], k) + if es[0].key == k then multiset{es[0].op} else multiset{}
  }

  /** Within one attribute, nothing comes after anything but a Remove. */
  predicate RemoveFirst(es: seq<Entry>) {
    forall i, j :: 0 <= i < j < |es| && es[i].key == es[j].key ==> es[i].op == Remove
  }

  /** Two entries on one attribute are an Add and a Remove. */
  predicate Compatible(es: seq<Entry>) {
    forall i, j :: 0 <= i < j < |es| && es[i].key == es[j].key ==> multiset{es[i].op, es[j].op} == SET_DIFF
  }

  lemma {:induction false} OpsContain(es: seq<Entry>, i: nat, j: nat)
    requires i < j < |es| && es[i].key == es[j].key
    ensures multiset{es[i].op, es[j].op} <= OpsIn(es, es[i].key)
  {
    hide OpsIn;
    var rest, k := es[1..], es[i].key;
    OpsInStep(es, k);
    assert rest[j - 1] == es[j];
    if i > 0 {
      assert rest[i - 1] == es[i];
      OpsContain(rest, i - 1, j - 1);
    } else {
      OpContained(rest, j - 1);
      JoinsPair(OpsIn(rest, k), es[0].op, es[j].op);
    }
  }

  lemma OpsInStep(es: seq<Entry>, k: string)
    requires es != []
    ensures OpsIn(es, k) == OpsIn(es[1..], k) + if es[0].key == k then multiset{es[0].op} else multiset{}
    ensures OpsIn(es[1..], k) <= OpsIn(es, k)
  {
  }

  lemma JoinsPair<T>(rest: multiset<T>, a: T, b: T)
    requires multiset{b} <= rest
    ensures multiset{a, b} <= rest + multiset{a}
  {
    assert multiset{a, b} == multiset{b} + multiset{a};
  }

  lemma {:induction false} OpContained(es: seq<Entry>, j: nat)
    requires j < |es|
    ensures multiset{es[j].op} <= OpsIn(es, es[j].key)
  {
    if j > 0 {
      OpContained(es[1..], j - 1);
    }
  }

  /** No conflict means no attribute is written twice but by an Add/Remove pair. */
  lemma UnconflictedIsCompatible(es: seq<Entry>)
    requires forall k :: !Conflicting(OpsIn(es, k))
    ensures Compatible(es)
  {
    forall i, j | 0 <= i < j < |es| && es[i].key == es[j].key
      ensures multiset{es[i].op, es[j].op} == SET_DIFF
    {
      OpsContain(es, i, j);
      assert !Conflicting(OpsIn(es, es[i].key));
      PairIs(OpsIn(es, es[i].key), es[i].op, es[j].op);
    }
  }

  /** A pair of operations without conflict is the Add/Remove pair. */
  lemma PairIs(ops: multiset<Op>, a: Op, b: Op)
    requires multiset{a, b} <= ops && !Conflicting(ops)
    ensures multiset{a, b} == SET_DIFF
  {
    var pair := multiset{a, b};
    assert ops == pair + (ops - pair) && |pair| == 2;
    assert |ops - pair| == 0;
  }

  lemma {:induction false} ExecConcat(a: seq<Entry>, b: seq<Entry>, st: Object)
    ensures Exec(a + b, st) == Exec(b, Exec(a, st))
  {
    if a == [] {
      assert a + b == b;
    } else {
      assert (a + b)[1..] == a[1..] + b;
      ExecConcat(a[1..], b, Do(a[0], st));
    }
  }

  /** Operations on different attributes commute. */
  lemma {:induction false} MovesToFront(es: seq<Entry>, e: Entry, st: Object)
    requires forall f <- es :: f.key != e.key
    ensures Do(e, Exec(es, st)) == Exec(es, Do(e, st))
  {
    hide Do;
    if es != [] {
      MovesToFront(es[1..], e, Do(es[0], st));
      Commute(e, es[0], st);
    }
  }

  lemma Commute(e: Entry, f: Entry, st: Object)
    requires e.key != f.key
    ensures Do(e, Do(f, st)) == Do(f, Do(e, st))
  {
    hide ValuesAt;
    ValuesElsewhere(e, f, st);
    ValuesElsewhere(f, e, st);
  }

  lemma ValuesElsewhere(e: Entry, f: Entry, st: Object)
    requires e.key != f.key
    ensures ValuesAt(Do(e, st), f.key) == ValuesAt(st, f.key)
  {
  }

  lemma TwoRemoves()
    ensures multiset{Remove, Remove} != SET_DIFF
  {
    assert SET_DIFF[Add] == 1;
  }

  lemma DropSame(es: seq<Entry>, fs: seq<Entry>, p: nat)
    requires es != [] && multiset(es) == multiset(fs) && p < |fs| && fs[p] == es[0]
    ensures multiset(fs[..p] + fs[p + 1..]) == multiset(es[1..])
  {
    Extract(fs, p);
    Extract(es, 0);
    assert es[..0] + es[1..] == es[1..];
    Cancel(multiset(fs[..p] + fs[p + 1..]), multiset(es[1..]), es[0]);
  }

  lemma Extract<T>(s: seq<T>, p: nat)
    requires p < |s|
    ensures multiset(s) == multiset(s[..p] + s[p + 1..]) + multiset{s[p]}
  {
    assert s == s[..p] + ([s[p]] + s[p + 1..]);
    assert multiset(s) == multiset(s[..p]) + (multiset{s[p]} + multiset(s[p + 1..]));
  }

  lemma Cancel<T>(a: multiset<T>, b: multiset<T>, x: T)
    requires a + multiset{x} == b + multiset{x}
    ensures a == b
  {
    assert a == (a + multiset{x}) - multiset{x};
  }

  /** An entry of `fs` other than the one at `p` is an entry of `es` other than its first. */
  lemma StandsLater(es: seq<Entry>, fs: seq<Entry>, p: nat, q: nat) returns (j: nat)
    requires es != [] && multiset(es) == multiset(fs) && q < p < |fs| && fs[p] == es[0]
    ensures 0 < j < |es| && es[j] == fs[q]
  {
    var rest := fs[..p] + fs[p + 1..];
    DropSame(es, fs, p);
    assert rest[q] == fs[q];
    assert fs[q] in multiset(es[1..]);
    var i :| 0 <= i < |es[1..]| && es[1..][i] == fs[q];
    j := i + 1;
  }

  /** Nothing on the same attribute stands before the first entry in another admissible order. */
  lemma FirstStaysFirst(es: seq<Entry>, fs: seq<Entry>, p: nat)
    requires es != [] && multiset(es) == multiset(fs) && Compatible(es) && RemoveFirst(es) && RemoveFirst(fs)
    requires p < |fs| && fs[p] == es[0]
    ensures forall f <- fs[..p] :: f.key != es[0].key
  {
    TwoRemoves();
    forall q | 0 <= q < p && fs[q].key == es[0].key ensures false {
      var j := StandsLater(es, fs, p, q);
    }
  }

  lemma Without(es: seq<Entry>, fs: seq<Entry>, p: nat) returns (fs': seq<Entry>)
    requires es != [] && multiset(es) == multiset(fs) && p < |fs| && fs[p] == es[0]
    requires Compatible(es) && RemoveFirst(es) && RemoveFirst(fs)
    ensures fs' == fs[..p] + fs[p + 1..] && multiset(es[1..]) == multiset(fs')
    ensures Compatible(es[1..]) && RemoveFirst(es[1..]) && RemoveFirst(fs')
  {
    fs' := fs[..p] + fs[p + 1..];
    DropSame(es, fs, p);
    forall i, j | 0 <= i < j < |fs'| && fs'[i].key == fs'[j].key ensures fs'[i].op == Remove {
      var i', j' := if i < p then i else i + 1, if j < p then j else j + 1;
      assert fs[i'] == fs'[i] && fs[j'] == fs'[j];
    }
  }

  /** An entry with nothing on its attribute before it may be done first. */
  lemma DoneFirst(fs: seq<Entry>, p: nat, st: Object)
    requires p < |fs| && forall f <- fs[..p] :: f.key != fs[p].key
    ensures Exec(fs, st) == Exec(fs[..p] + fs[p + 1..], Do(fs[p], st))
  {
    var e := fs[p];
    assert fs == fs[..p] + ([e] + fs[p + 1..]);
    ExecConcat(fs[..p], [e] + fs[p + 1..], st);
    MovesToFront(fs[..p], e, st);
    ExecConcat(fs[..p], fs[p + 1..], Do(e, st));
    assert ([e] + fs[p + 1..])[1..] == fs[p + 1..];
  }

  /** Every admissible order of the same compatible entries has the same outcome. */
  lemma {:induction false} OrderIrrelevant(es: seq<Entry>, fs: seq<Entry>, st: Object)
    requires multiset(es) == multiset(fs) && Compatible(es) && RemoveFirst(es) && RemoveFirst(fs)
    ensures Exec(es, st) == Exec(fs, st)
    decreases |es|
  {
    hide Compatible, RemoveFirst, Do;
    if es == [] {
      assert |fs| == |multiset(fs)| == 0;
    } else {
      assert es[0] in multiset(fs);
      var p :| 0 <= p < |fs| && fs[p] == es[0];
      FirstStaysFirst(es, fs, p);
      var fs' := Without(es, fs, p);
      DoneFirst(fs, p, st);
      OrderIrrelevant(es[1..], fs', Do(es[0], st));
    }
  }

  /** The entries of what Apply has accepted: for every attribute, the operations on it. */
  lemma AppliesInAnyOrder(add: set<string>, remove: set<string>, replace: set<string>, clear: seq<string>,
                          es: seq<Entry>, fs: seq<Entry>, st: Object)
    requires forall k :: !Conflicting(OpsOn(add, remove, replace, clear, k))
    requires forall k :: OpsIn(es, k) == OpsOn(add, remove, replace, clear, k)
    requires multiset(es) == multiset(fs) && RemoveFirst(es) && RemoveFirst(fs)
    ensures Exec(es, st) == Exec(fs, st)
  {
    forall k ensures !Conflicting(OpsIn(es, k)) {
      assert OpsIn(es, k) == OpsOn(add, remove, replace, clear, k);
    }
    UnconflictedIsCompatible(es);
    OrderIrrelevant(es, fs, st);
  }
}
