/** The schema inheritance closure (internal/adschema/resolve.go): classes form a
    graph, cyclic at its root, and a class's effective attributes are those listed
    anywhere the graph reaches. */
module Schema {
  import opened Common
  import opened Strings

  type Name = string

  datatype RawClass = RawClass(name: Name, category: int, subClassOf: Name,
                               auxiliary: seq<Name>, systemAuxiliary: seq<Name>,
                               must: seq<Name>, systemMust: seq<Name>,
                               may: seq<Name>, systemMay: seq<Name>)
  {
    /** The classes one step up the closure, in the order they are walked. */
    function Next(): seq<Name> {
      [subClassOf] + auxiliary + systemAuxiliary
    }

    /** The attribute lists of the class, each marked mandatory or not. */
    function Groups(): (g: seq<(seq<Name>, bool)>)
      ensures |g| == 4
    {
      [(must, true), (systemMust, true), (may, false), (systemMay, false)]
    }

    predicate Names(n: Name) {
      exists i :: 0 <= i < 4 && n in Groups()[i].0
    }
  }

  datatype Index = Index(classes: map<Name, RawClass>, attrs: map<Name, Name>)
  {
    ghost predicate Valid() {
      && (forall k <- classes :: Fold(classes[k].name) == k)
      && (forall k <- attrs :: Fold(attrs[k]) == k)
    }

    /** The canonical spelling of an attribute the fetch returned. */
    function Canonical(n: Name): Name {
      if Fold(n) in attrs then attrs[Fold(n)] else ""
    }

    function Successors(f: Name): set<Name> {
      if f in classes then set n | n in classes[f].Next() :: Fold(n) else {}
    }

    /** Everything reached from `s` in at most `n` steps. */
    function Within(s: Name, n: nat): set<Name> {
      if n == 0 then {s}
      else Within(s, n - 1) + set f, g | f in Within(s, n - 1) && g in Successors(f) :: g
    }

    ghost predicate Reachable(s: Name, f: Name) {
      exists n: nat :: f in Within(s, n)
    }

    /** `f` is `d` steps away from `s` and no fewer. */
    predicate Distance(s: Name, f: Name, d: nat) {
      f in Within(s, d) && (d > 0 ==> f !in Within(s, d - 1))
    }

    /** Class `f` names an attribute or a class that the fetch did not return. */
    ghost predicate Dangling(f: Name)
      requires f in classes
    {
      || (exists n :: classes[f].Names(n) && Fold(n) !in attrs)
      || (exists n :: n in classes[f].Next() && Fold(n) !in classes)
    }
  }

  lemma {:induction false} WithinGrows(ix: Index, s: Name, m: nat, n: nat)
    requires m <= n
    ensures ix.Within(s, m) <= ix.Within(s, n)
    decreases n - m
  {
    if m < n {
      WithinGrows(ix, s, m, n - 1);
    }
  }

  lemma DistanceUnique(ix: Index, s: Name, f: Name, d: nat, e: nat)
    requires ix.Distance(s, f, d) && ix.Distance(s, f, e)
    ensures d == e
  {
    if d < e {
      WithinGrows(ix, s, d, e - 1);
    } else if e < d {
      WithinGrows(ix, s, e, d - 1);
    }
  }

  lemma {:induction false} HasDistance(ix: Index, s: Name, f: Name, n: nat) returns (d: nat)
    requires f in ix.Within(s, n)
    ensures d <= n && ix.Distance(s, f, d)
  {
    if n == 0 || f !in ix.Within(s, n - 1) {
      d := n;
    } else {
      d := HasDistance(ix, s, f, n - 1);
    }
  }

  /** A set holding `s` and closed under successors holds everything reachable. */
  lemma {:induction false} ClosedHoldsAll(ix: Index, s: Name, seen: set<Name>, n: nat)
    requires s in seen && forall f <- seen :: ix.Successors(f) <= seen
    ensures ix.Within(s, n) <= seen
  {
    if n > 0 {
      ClosedHoldsAll(ix, s, seen, n - 1);
    }
  }

  // ---------- Contributions ----------

  datatype Contribution = Contribution(depth: nat, class_: Name, mandatory: bool)

  /** One occurrence of an attribute in one of a class's lists. */
  datatype Listing = Listing(attr: Name, depth: nat, class_: Name, mandatory: bool)

  /** Nearest first, ties by class name ascending. */
  predicate Before(d: nat, c: Name, d': nat, c': Name) {
    d < d' || (d == d' && Less(c, c'))
  }

  lemma BeforeOrder(d: nat, c: Name, d': nat, c': Name, d'': nat, c'': Name)
    ensures Before(d, c, d', c') || (d == d' && c == c') || Before(d', c', d, c)
    ensures !(Before(d, c, d', c') && Before(d', c', d, c))
    ensures Before(d, c, d', c') && Before(d', c', d'', c'') ==> Before(d, c, d'', c'')
  {
    Trichotomy(c, c');
    if Less(c, c') && Less(c', c'') {
      LessTransitive(c, c', c'');
    }
  }

  /** `contrib` is the join of the listings `ls`: an attribute occurs in it when it is
      listed, is mandatory when it is listed so anywhere, and is credited to the least
      (distance, class name) that lists it. */
  ghost predicate JoinOf(contrib: map<Name, Contribution>, ls: set<Listing>) {
    && (forall l <- ls :: l.attr in contrib)
    && (forall a <- contrib :: Credits(a, contrib[a], ls))
  }

  ghost predicate Credits(a: Name, c: Contribution, ls: set<Listing>) {
    && (exists l :: l in ls && l.attr == a && l.depth == c.depth && l.class_ == c.class_)
    && (forall l <- ls :: l.attr == a ==> !Before(l.depth, l.class_, c.depth, c.class_))
    && (c.mandatory <==> exists l :: l in ls && l.attr == a && l.mandatory)
  }

  lemma JoinUnique(c: map<Name, Contribution>, c': map<Name, Contribution>, ls: set<Listing>)
    requires JoinOf(c, ls) && JoinOf(c', ls)
    ensures c == c'
  {
    assert c.Keys == c'.Keys;
    forall a <- c ensures c[a] == c'[a] {
      assert Credits(a, c[a], ls) && Credits(a, c'[a], ls);
      BeforeOrder(c[a].depth, c[a].class_, c'[a].depth, c'[a].class_, 0, "");
    }
  }

  /** The contribution table, updated in place. */
  class Contributions {
    var entries: map<Name, Contribution>

    constructor ()
      ensures entries == map[]
    {
      entries := map[];
    }

    method Record(attr: Name, depth: nat, class_: Name, mandatory: bool, ghost ls: set<Listing>)
      requires JoinOf(entries, ls)
      modifies this
      ensures JoinOf(entries, ls + {Listing(attr, depth, class_, mandatory)})
    {
      ghost var l := Listing(attr, depth, class_, mandatory);
      ghost var was := entries;
      if attr !in entries {
        entries := entries[attr := Contribution(depth, class_, mandatory)];
        BeforeOrder(depth, class_, depth, class_, 0, "");
      } else {
        var c := entries[attr];
        if mandatory {
          c := c.(mandatory := true);
        }
        if depth < c.depth || (depth == c.depth && Less(class_, c.class_)) {
          c := c.(depth := depth, class_ := class_);
        }
        entries := entries[attr := c];
        assert Credits(attr, was[attr], ls);
        JoinStep(attr, was[attr], c, l, ls);
      }
      forall a <- entries | a != attr ensures Credits(a, entries[a], ls + {l}) {
        assert Credits(a, was[a], ls);
      }
    }
  }

  lemma JoinStep(a: Name, c: Contribution, c': Contribution, l: Listing, ls: set<Listing>)
    requires Credits(a, c, ls) && l.attr == a
    requires var before := Before(l.depth, l.class_, c.depth, c.class_);
             c' == Contribution(if before then l.depth else c.depth, if before then l.class_ else c.class_,
                                c.mandatory || l.mandatory)
    ensures Credits(a, c', ls + {l})
  {
    forall k <- ls + {l} | k.attr == a
      ensures !Before(k.depth, k.class_, c'.depth, c'.class_)
    {
      BeforeOrder(k.depth, k.class_, l.depth, l.class_, c.depth, c.class_);
      BeforeOrder(l.depth, l.class_, l.depth, l.class_, 0, "");
    }
    if c'.mandatory {
      assert exists k :: k in ls + {l} && k.attr == a && k.mandatory by {
        if l.mandatory {
          assert l in ls + {l};
        } else {
          var k :| k in ls && k.attr == a && k.mandatory;
          assert k in ls + {l};
        }
      }
    }
  }

  // ---------- The breadth-first walk ----------

  datatype Missing =
    | MissingAttribute(class_: Name, name: Name)
    | MissingClass(class_: Name, name: Name)
    | NoSuchClass(name: Name)

  function ListingsIn(ix: Index, names: seq<Name>, d: nat, c: Name, mandatory: bool): set<Listing> {
    set n | n in names :: Listing(ix.Canonical(n), d, c, mandatory)
  }

  function ListingsOf(ix: Index, f: Name, d: nat): set<Listing>
    requires f in ix.classes
  {
    GroupListings(ix, ix.classes[f], d, 4)
  }

  function GroupListings(ix: Index, cl: RawClass, d: nat, k: nat): set<Listing>
    requires k <= 4
  {
    if k == 0 then {}
    else GroupListings(ix, cl, d, k - 1) + ListingsIn(ix, cl.Groups()[k - 1].0, d, cl.name, cl.Groups()[k - 1].1)
  }

  /** Every listing of the classes `fs`, each at its depth. */
  function AllListings(ix: Index, depths: map<Name, nat>, fs: set<Name>): set<Listing> {
    set f, l | f in fs && f in depths && f in ix.classes && l in ListingsOf(ix, f, depths[f]) :: l
  }

  /** `depths` maps exactly the classes reachable from `s` to their distance. */
  ghost predicate IsDepths(ix: Index, s: Name, depths: map<Name, nat>) {
    && (forall f <- depths :: ix.Distance(s, f, depths[f]))
    && (forall f :: ix.Reachable(s, f) ==> f in depths)
  }

  /** Every class in `fs` was fetched, and so was everything it names. */
  ghost predicate Complete(ix: Index, fs: set<Name>) {
    forall f <- fs :: f in ix.classes && !ix.Dangling(f)
  }

  /** What closure(start) returns when it does not fail. */
  ghost predicate IsClosure(ix: Index, s: Name, depths: map<Name, nat>, contrib: map<Name, Contribution>) {
    && IsDepths(ix, s, depths)
    && Complete(ix, depths.Keys)
    && JoinOf(contrib, AllListings(ix, depths, depths.Keys))
  }

  /** The name an error complains about is one a reachable class really refers to. */
  ghost predicate Complains(ix: Index, s: Name, e: Missing) {
    exists f :: f in ix.classes && ix.Reachable(s, f) && ix.Dangling(f) && ComplainsAbout(ix, f, e)
  }

  /** The exact failure condition of a closure. */
  ghost predicate Fails(ix: Index, s: Name) {
    exists f :: f in ix.classes && ix.Reachable(s, f) && ix.Dangling(f)
  }

  ghost predicate ComplainsAbout(ix: Index, f: Name, e: Missing)
    requires f in ix.classes
  {
    && !e.NoSuchClass?
    && e.class_ == ix.classes[f].name
    && (e.MissingAttribute? ==> ix.classes[f].Names(e.name) && Fold(e.name) !in ix.attrs)
    && (e.MissingClass? ==> e.name in ix.classes[f].Next() && Fold(e.name) !in ix.classes)
  }

  datatype Queued = Queued(class_: RawClass, depth: nat)

  function Key(q: Queued): Name {
    Fold(q.class_.name)
  }

  /** The wave front at depth `d`: what has been seen lies within `d + 1` steps, all
      that lies within `d` steps has been seen, and the queue holds the classes seen
      but not yet walked, in order of depth. */
  ghost predicate Wave(ix: Index, s: Name, depths: map<Name, nat>, done: set<Name>, queue: seq<Queued>, d: nat) {
    Seen(ix, s, depths, d) && Ordered(ix, depths, done, queue, d) && Walked(ix, depths, done)
  }

  ghost predicate Seen(ix: Index, s: Name, depths: map<Name, nat>, d: nat) {
    && s in depths
    && (forall f <- depths :: f in ix.classes && depths[f] <= d + 1 && ix.Distance(s, f, depths[f]))
    && ix.Within(s, d) <= depths.Keys
  }

  ghost predicate Ordered(ix: Index, depths: map<Name, nat>, done: set<Name>, queue: seq<Queued>, d: nat) {
    && (forall q <- queue :: Key(q) in depths && Key(q) in ix.classes && ix.classes[Key(q)] == q.class_
                             && Key(q) !in done && depths[Key(q)] == q.depth && d <= q.depth <= d + 1)
    && (forall i, j :: 0 <= i < j < |queue| ==> queue[i].depth <= queue[j].depth && Key(queue[i]) != Key(queue[j]))
  }

  ghost predicate Walked(ix: Index, depths: map<Name, nat>, done: set<Name>) {
    done <= depths.Keys && forall f <- done :: ix.Successors(f) <= depths.Keys
  }

  ghost predicate Pending(depths: map<Name, nat>, done: set<Name>, queue: seq<Queued>) {
    forall f <- depths :: f in done || exists q :: q in queue && Key(q) == f
  }

  lemma WalkedBefore(ix: Index, s: Name, depths: map<Name, nat>, done: set<Name>, queue: seq<Queued>, d: nat, f: Name)
    requires Wave(ix, s, depths, done, queue, d) && Pending(depths, done, queue)
    requires forall q <- queue :: q.depth == d + 1
    requires f in ix.Within(s, d)
    ensures f in done
  {
    hide Fold, Index.Within, Index.Distance, Ordered, Walked, Key;
    assert f in depths;
    var e := HasDistance(ix, s, f, d);
    DistanceUnique(ix, s, f, e, depths[f]);
    if f !in done {
      var q :| q in queue && Key(q) == f;
      QueuedDepth(ix, depths, done, queue, d, q);
    }
  }

  lemma QueuedDepth(ix: Index, depths: map<Name, nat>, done: set<Name>, queue: seq<Queued>, d: nat, q: Queued)
    requires Ordered(ix, depths, done, queue, d) && q in queue
    ensures Key(q) in depths && depths[Key(q)] == q.depth
  {
    hide Key;
  }

  lemma NextLevelSeen(ix: Index, s: Name, depths: map<Name, nat>, done: set<Name>, queue: seq<Queued>, d: nat)
    requires Wave(ix, s, depths, done, queue, d) && Pending(depths, done, queue)
    requires forall q <- queue :: q.depth == d + 1
    ensures ix.Within(s, d + 1) <= depths.Keys
  {
    forall g | g in ix.Within(s, d + 1) ensures g in depths {
      if g !in ix.Within(s, d) {
        var f :| f in ix.Within(s, d) && g in ix.Successors(f);
        WalkedBefore(ix, s, depths, done, queue, d, f);
      }
    }
  }

  lemma WaveAdvances(ix: Index, s: Name, depths: map<Name, nat>, done: set<Name>, queue: seq<Queued>, d: nat)
    requires Wave(ix, s, depths, done, queue, d) && Pending(depths, done, queue) && queue != []
    ensures Wave(ix, s, depths, done, queue, queue[0].depth)
  {
    FrontLeast(ix, depths, done, queue, d);
    if queue[0].depth == d + 1 {
      NextLevelSeen(ix, s, depths, done, queue, d);
    }
    hide Fold, Ordered, Walked, Index.Within, Index.Distance;
    assert queue[0] in queue;
  }

  /** Nothing in the queue is nearer than its front. */
  lemma FrontLeast(ix: Index, depths: map<Name, nat>, done: set<Name>, queue: seq<Queued>, d: nat)
    requires Ordered(ix, depths, done, queue, d) && queue != []
    ensures d <= queue[0].depth <= d + 1 && forall q <- queue :: queue[0].depth <= q.depth <= d + 1
    ensures Ordered(ix, depths, done, queue, queue[0].depth)
  {
    hide Key;
    assert queue[0] in queue;
    forall q <- queue ensures queue[0].depth <= q.depth <= d + 1 {
      var i :| 0 <= i < |queue| && queue[i] == q;
    }
  }

  /** A class first seen from the class at the front is exactly one step further. */
  lemma SeenFromFront(ix: Index, s: Name, f: Name, g: Name, d: nat)
    requires ix.Distance(s, f, d) && g in ix.Successors(f) && g !in ix.Within(s, d)
    ensures ix.Distance(s, g, d + 1)
  {
    assert g in ix.Within(s, d + 1);
  }

  method RecordGroup(ix: Index, contrib: Contributions, names: seq<Name>, cl: RawClass, d: nat, mandatory: bool,
                     ghost ls: set<Listing>)
    returns (missing: Option<Missing>)
    requires JoinOf(contrib.entries, ls)
    modifies contrib
    ensures missing.None? ==> && (forall n <- names :: Fold(n) in ix.attrs)
                              && JoinOf(contrib.entries, ls + ListingsIn(ix, names, d, cl.name, mandatory))
    ensures missing.Some? ==> && missing.value.MissingAttribute? && missing.value.class_ == cl.name
                              && missing.value.name in names && Fold(missing.value.name) !in ix.attrs
  {
    hide JoinOf;
    ghost var seen := ls;
    for k := 0 to |names|
      invariant forall n <- names[..k] :: Fold(n) in ix.attrs
      invariant seen == ls + ListingsIn(ix, names[..k], d, cl.name, mandatory)
      invariant JoinOf(contrib.entries, seen)
    {
      if Fold(names[k]) !in ix.attrs {
        return Some(MissingAttribute(cl.name, names[k]));
      }
      contrib.Record(ix.attrs[Fold(names[k])], d, cl.name, mandatory, seen);
      seen := seen + {Listing(ix.attrs[Fold(names[k])], d, cl.name, mandatory)};
      OneMore(ix, names, k, d, cl.name, mandatory);
      assert names[..k + 1] == names[..k] + [names[k]];
    }
    assert names[..|names|] == names;
    return None;
  }

  lemma OneMore(ix: Index, names: seq<Name>, k: nat, d: nat, c: Name, mandatory: bool)
    requires k < |names|
    ensures ListingsIn(ix, names[..k + 1], d, c, mandatory)
            == ListingsIn(ix, names[..k], d, c, mandatory) + {Listing(ix.Canonical(names[k]), d, c, mandatory)}
  {
    assert names[..k + 1] == names[..k] + [names[k]];
  }

  /** The four lists of one class, mandatory ones first. */
  method RecordClass(ix: Index, contrib: Contributions, f: Name, d: nat, ghost ls: set<Listing>)
    returns (missing: Option<Missing>)
    requires f in ix.classes && JoinOf(contrib.entries, ls)
    modifies contrib
    ensures missing.None? ==> && (forall n | ix.classes[f].Names(n) :: Fold(n) in ix.attrs)
                              && JoinOf(contrib.entries, ls + ListingsOf(ix, f, d))
    ensures missing.Some? ==> missing.value.MissingAttribute? && ComplainsAbout(ix, f, missing.value)
  {
    hide JoinOf;
    var cl := ix.classes[f];
    assert ls + {} == ls;
    for k := 0 to 4
      invariant forall i, n :: 0 <= i < k && n in cl.Groups()[i].0 ==> Fold(n) in ix.attrs
      invariant JoinOf(contrib.entries, ls + GroupListings(ix, cl, d, k))
    {
      var (names, mandatory) := cl.Groups()[k];
      missing := RecordGroup(ix, contrib, names, cl, d, mandatory, ls + GroupListings(ix, cl, d, k));
      if missing.Some? {
        return;
      }
      assert (ls + GroupListings(ix, cl, d, k)) + ListingsIn(ix, names, d, cl.name, mandatory)
          == ls + GroupListings(ix, cl, d, k + 1);
    }
    return None;
  }

  /** Queueing class `g`, first seen from class `f` at depth `d`, keeps the wave. */
  lemma WaveGrows(ix: Index, s: Name, depths: map<Name, nat>, done: set<Name>, queue: seq<Queued>, d: nat,
                  f: Name, g: Name)
    requires Wave(ix, s, depths, done, queue, d) && ix.Valid()
    requires f in depths && depths[f] == d && g in ix.Successors(f) && g !in depths && g in ix.classes
    ensures Wave(ix, s, depths[g := d + 1], done, queue + [Queued(ix.classes[g], d + 1)], d)
  {
    SeenFromFront(ix, s, f, g, d);
    OrderGrows(ix, depths, done, queue, d, g);
    hide Index.Successors, Index.Within, Index.Distance, Ordered;
    SeenGrows(ix, s, depths, d, g);
    assert depths.Keys <= depths[g := d + 1].Keys;
  }

  lemma SeenGrows(ix: Index, s: Name, depths: map<Name, nat>, d: nat, g: Name)
    requires Seen(ix, s, depths, d) && g in ix.classes && ix.Distance(s, g, d + 1)
    requires g !in depths
    ensures Seen(ix, s, depths[g := d + 1], d)
  {
    hide Index.Within, Index.Distance;
  }

  lemma OrderGrows(ix: Index, depths: map<Name, nat>, done: set<Name>, queue: seq<Queued>, d: nat, g: Name)
    requires Ordered(ix, depths, done, queue, d) && ix.Valid() && done <= depths.Keys
    requires g !in depths && g in ix.classes
    ensures Ordered(ix, depths[g := d + 1], done, queue + [Queued(ix.classes[g], d + 1)], d)
  {
    hide Fold;
    var queue' := queue + [Queued(ix.classes[g], d + 1)];
    assert Key(queue'[|queue|]) == g;
    forall i, j | 0 <= i < j < |queue'|
      ensures queue'[i].depth <= queue'[j].depth && Key(queue'[i]) != Key(queue'[j])
    {
      assert queue[i] in queue;
    }
  }

  lemma PendingGrows(depths: map<Name, nat>, done: set<Name>, queue: seq<Queued>, q': Queued)
    requires Pending(depths, done, queue)
    ensures Pending(depths[Key(q') := q'.depth], done, queue + [q'])
  {
    forall f | f in depths[Key(q') := q'.depth] && f !in done
      ensures exists q :: q in queue + [q'] && Key(q) == f
    {
      if f == Key(q') {
        assert q' in queue + [q'];
      } else {
        var q :| q in queue && Key(q) == f;
        assert q in queue + [q'];
      }
    }
  }

  ghost predicate Extends(m: map<Name, nat>, m': map<Name, nat>) {
    forall f <- m :: f in m' && m'[f] == m[f]
  }

  /** The step from a class to those it refers to. */
  method WalkNext(ix: Index, ghost s: Name, cl: RawClass, d: nat, visited: set<Name>, queue: seq<Queued>,
                  ghost depths: map<Name, nat>, ghost done: set<Name>)
    returns (missing: Option<Missing>, visited': set<Name>, queue': seq<Queued>, ghost depths': map<Name, nat>)
    requires ix.Valid() && Wave(ix, s, depths, done, queue, d) && visited == depths.Keys
    requires var f := Fold(cl.name);
             && f in depths && depths[f] == d && f in ix.classes && ix.classes[f] == cl
             && Pending(depths, done + {f}, queue) && forall q <- queue :: Key(q) != f
    ensures missing.None? ==> var done' := done + {Fold(cl.name)};
                              && visited' == depths'.Keys && Wave(ix, s, depths', done', queue', d)
                              && Pending(depths', done', queue') && Extends(depths, depths')
                              && forall n <- cl.Next() :: Fold(n) in ix.classes
    ensures missing.Some? ==> missing.value.MissingClass? && ComplainsAbout(ix, Fold(cl.name), missing.value)
  {
    hide Fold, Wave;
    visited', queue', depths' := visited, queue, depths;
    ghost var f := Fold(cl.name);
    var next := cl.Next();
    for k := 0 to |next|
      invariant Wave(ix, s, depths', done, queue', d) && visited' == depths'.Keys && Extends(depths, depths')
      invariant Pending(depths', done + {f}, queue') && forall q <- queue' :: Key(q) != f
      invariant forall n <- next[..k] :: Fold(n) in depths' && Fold(n) in ix.classes
    {
      var g := Fold(next[k]);
      assert next[..k + 1] == next[..k] + [next[k]];
      if g in visited' {
        KnownClass(ix, s, depths', done, queue', d, g);
        continue;
      }
      if g !in ix.classes {
        return Some(MissingClass(cl.name, next[k])), visited', queue', depths';
      }
      assert next[k] in ix.classes[f].Next();
      WaveGrows(ix, s, depths', done, queue', d, f, g);
      PendingGrows(depths', done + {f}, queue', Queued(ix.classes[g], d + 1));
      visited' := visited' + {g};
      queue' := queue' + [Queued(ix.classes[g], d + 1)];
      depths' := depths'[g := d + 1];
    }
    assert next[..|next|] == next;
    WaveDone(ix, s, depths', done, queue', d, f);
    return None, visited', queue', depths';
  }

  lemma KnownClass(ix: Index, s: Name, depths: map<Name, nat>, done: set<Name>, queue: seq<Queued>, d: nat, g: Name)
    requires Wave(ix, s, depths, done, queue, d) && g in depths
    ensures g in ix.classes
  {
  }

  lemma WaveDone(ix: Index, s: Name, depths: map<Name, nat>, done: set<Name>, queue: seq<Queued>, d: nat, f: Name)
    requires Wave(ix, s, depths, done, queue, d) && f in depths
    requires ix.Successors(f) <= depths.Keys && forall q <- queue :: Key(q) != f
    ensures Wave(ix, s, depths, done + {f}, queue, d)
  {
  }

  method Closure(ix: Index, start: RawClass)
    returns (r: Result<map<Name, Contribution>, Missing>, ghost depths: map<Name, nat>)
    requires ix.Valid() && Fold(start.name) in ix.classes && ix.classes[Fold(start.name)] == start
    ensures r.Ok? ==> IsClosure(ix, Fold(start.name), depths, r.value)
    ensures r.Err? ==> Complains(ix, Fold(start.name), r.error)
    ensures r.Err? <==> Fails(ix, Fold(start.name))
  {
    hide Fold, Wave, JoinOf, AllListings, Complains, Fails, Pending, Index.Reachable,
      ComplainsAbout, IsClosure, Index.Successors, Complete, Index.Dangling;
    var contrib := new Contributions();
    ghost var s := Fold(start.name);
    var visited := {Fold(start.name)};
    var queue := [Queued(start, 0)];
    depths := map[s := 0];
    ghost var done: set<Name> := {};
    ghost var d := 0;
    WaveStarts(ix, start);
    while queue != []
      invariant visited == depths.Keys && Pending(depths, done, queue)
      invariant Wave(ix, s, depths, done, queue, d)
      invariant Complete(ix, done)
      invariant JoinOf(contrib.entries, AllListings(ix, depths, done))
      decreases ix.classes.Keys - done
    {
      WaveAdvances(ix, s, depths, done, queue, d);
      var cur := queue[0];
      ghost var f := Key(cur);
      d := cur.depth;
      FrontOfWave(ix, s, depths, done, queue, d);
      queue := queue[1..];
      var missing := RecordClass(ix, contrib, Fold(cur.class_.name), cur.depth, AllListings(ix, depths, done));
      if missing.Some? {
        ComplaintStands(ix, s, f, missing.value);
        return Err(missing.value), depths;
      }
      ghost var was := depths;
      missing, visited, queue, depths := WalkNext(ix, s, cur.class_, cur.depth, visited, queue, depths, done);
      if missing.Some? {
        ComplaintStands(ix, s, f, missing.value);
        return Err(missing.value), depths;
      }
      ListingsGrow(ix, was, depths, done, f);
      CompleteGrows(ix, done, f);
      done := done + {f};
    }
    WaveEnds(ix, s, depths, done, d, contrib.entries);
    return Ok(contrib.entries), depths;
  }

  lemma WaveStarts(ix: Index, start: RawClass)
    requires Fold(start.name) in ix.classes && ix.classes[Fold(start.name)] == start
    ensures var s := Fold(start.name);
            var depths := map[s := 0];
            && Wave(ix, s, depths, {}, [Queued(start, 0)], 0) && Pending(depths, {}, [Queued(start, 0)])
            && Complete(ix, {}) && JoinOf(map[], AllListings(ix, depths, {}))
  {
    var s := Fold(start.name);
    var q := Queued(start, 0);
    hide Fold;
    assert AllListings(ix, map[s := 0], {}) == {};
    assert Key(q) == s && q in [q];
  }

  lemma CompleteGrows(ix: Index, done: set<Name>, f: Name)
    requires Complete(ix, done) && f in ix.classes
    requires (forall n | ix.classes[f].Names(n) :: Fold(n) in ix.attrs)
    requires (forall n <- ix.classes[f].Next() :: Fold(n) in ix.classes)
    ensures Complete(ix, done + {f})
  {
  }

  lemma ComplaintStands(ix: Index, s: Name, f: Name, e: Missing)
    requires f in ix.classes && ix.Reachable(s, f) && ComplainsAbout(ix, f, e)
    ensures Complains(ix, s, e) && Fails(ix, s)
  {
    assert ix.Dangling(f);
  }

  lemma FrontOfWave(ix: Index, s: Name, depths: map<Name, nat>, done: set<Name>, queue: seq<Queued>, d: nat)
    requires Wave(ix, s, depths, done, queue, d) && Pending(depths, done, queue) && queue != [] && queue[0].depth == d
    ensures var f := Key(queue[0]);
            && f in ix.classes && ix.classes[f] == queue[0].class_ && f in depths && depths[f] == d && f !in done
            && done <= ix.classes.Keys && done <= depths.Keys
            && ix.Reachable(s, f) && Pending(depths, done + {f}, queue[1..])
            && forall q <- queue[1..] :: Key(q) != f
    ensures Wave(ix, s, depths, done, queue[1..], d)
  {
    hide Fold, Index.Within, Index.Successors;
    TailOrdered(ix, depths, done, queue, d);
    TailPending(depths, done, queue);
  }

  lemma TailOrdered(ix: Index, depths: map<Name, nat>, done: set<Name>, queue: seq<Queued>, d: nat)
    requires Ordered(ix, depths, done, queue, d) && queue != []
    ensures Ordered(ix, depths, done, queue[1..], d) && forall q <- queue[1..] :: Key(q) != Key(queue[0])
  {
    hide Fold;
    assert forall q <- queue[1..] :: q in queue;
  }

  lemma TailPending(depths: map<Name, nat>, done: set<Name>, queue: seq<Queued>)
    requires Pending(depths, done, queue) && queue != []
    ensures Pending(depths, done + {Key(queue[0])}, queue[1..])
  {
    forall f | f in depths && f !in done + {Key(queue[0])}
      ensures exists q :: q in queue[1..] && Key(q) == f
    {
      var q :| q in queue && Key(q) == f;
      assert q in queue[1..];
    }
  }

  lemma ListingsGrow(ix: Index, depths: map<Name, nat>, depths': map<Name, nat>, done: set<Name>, f: Name)
    requires Extends(depths, depths') && done <= depths.Keys && f in depths && f in ix.classes
    ensures AllListings(ix, depths', done + {f}) == AllListings(ix, depths, done) + ListingsOf(ix, f, depths[f])
  {
    hide GroupListings;
  }

  /** When the queue runs dry everything reachable has been walked. */
  lemma WaveEnds(ix: Index, s: Name, depths: map<Name, nat>, done: set<Name>, d: nat, contrib: map<Name, Contribution>)
    requires Wave(ix, s, depths, done, [], d) && Pending(depths, done, [])
    requires Complete(ix, done) && JoinOf(contrib, AllListings(ix, depths, done))
    ensures IsClosure(ix, s, depths, contrib) && !Fails(ix, s)
  {
    hide JoinOf, AllListings;
    assert done == depths.Keys;
    forall f | ix.Reachable(s, f) ensures f in depths {
      var n: nat :| f in ix.Within(s, n);
      ClosedHoldsAll(ix, s, depths.Keys, n);
    }
  }
}
